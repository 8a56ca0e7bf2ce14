/** The sparse compression filter over a list of blobs. A cell of a blob holds an index or a value; both
    are WIDTH bytes wide. */
module SparseFilter {
  import opened Options

  const WIDTH := 4

  datatype Cell = Index(index: int) | Value(value: real)

  type Blob = seq<Cell>

  function Abs(v: real): real
  {
    if v < 0.0 then -v else v
  }

  predicate IsLarge(c: Cell, clip: real)
  {
    c.Value? && Abs(c.value) > clip
  }

  ghost predicate IsData(b: Blob)
  {
    forall i :: 0 <= i < |b| ==> b[i].Value?
  }

  // ---- one blob ----

  /** Elements above clip among the first k. */
  function CountLarge(b: Blob, clip: real, k: nat): nat
    requires k <= |b|
  {
    if k == 0 then 0 else CountLarge(b, clip, k - 1) + if IsLarge(b[k - 1], clip) then 1 else 0
  }

  /** Index and value of each of them. */
  function Pairs(b: Blob, clip: real, k: nat): (p: Blob)
    requires k <= |b|
    ensures |p| == 2 * CountLarge(b, clip, k)
  {
    if k == 0 then []
    else if IsLarge(b[k - 1], clip) then Pairs(b, clip, k - 1) + [Index(k - 1), b[k - 1]]
    else Pairs(b, clip, k - 1)
  }

  /** Compressing pays only if less than half of the elements are large. */
  predicate Pays(b: Blob, clip: real)
  {
    CountLarge(b, clip, |b|) * 2 < |b|
  }

  /** A blob cannot be empty: without large elements the first one stands in. */
  function Compressed(b: Blob, clip: real): (c: Blob)
    requires Pays(b, clip)
    ensures |c| % 2 == 0
  {
    if CountLarge(b, clip, |b|) == 0 then [Index(0), b[0]] else Pairs(b, clip, |b|)
  }

  /** Cells 2j and 2j + 1 are the index of one of count elements and its new value. */
  predicate IsPair(c: Blob, count: nat, j: nat)
    requires 2 * j + 1 < |c|
  {
    c[2 * j].Index? && 0 <= c[2 * j].index < count && c[2 * j + 1].Value?
  }

  ghost predicate ArePairs(c: Blob, count: nat, n: nat)
  {
    2 * n <= |c| && forall j: nat :: j < n ==> IsPair(c, count, j)
  }

  /** All zeros, with the first j pairs written in. */
  function Restored(c: Blob, count: nat, j: nat): (b: Blob)
    requires ArePairs(c, count, j)
    ensures |b| == count
  {
    if j == 0 then seq(count, _ => Value(0.0))
    else
      assert IsPair(c, count, j - 1);
      Restored(c, count, j - 1)[c[2 * (j - 1)].index := c[2 * (j - 1) + 1]]
  }

  /** The positions of the elements above clip, among the first k. */
  ghost function LargeAt(b: Blob, clip: real, k: nat): (s: set<nat>)
    requires k <= |b| && IsData(b)
    ensures forall i: nat :: i in s <==> i < k && (b[i].value > clip || -b[i].value > clip)
  {
    set i: nat | i < k && (b[i].value > clip || -b[i].value > clip)
  }

  lemma {:induction false} CountIsCardinality(b: Blob, clip: real, k: nat)
    requires k <= |b| && IsData(b)
    ensures CountLarge(b, clip, k) == |LargeAt(b, clip, k)|
  {
    if k > 0 {
      CountIsCardinality(b, clip, k - 1);
      var less := LargeAt(b, clip, k - 1);
      if IsLarge(b[k - 1], clip) {
        assert LargeAt(b, clip, k) == less + {k - 1};
      } else {
        assert LargeAt(b, clip, k) == less;
      }
    }
  }

  /** Pair j of a compressed blob: a position of b, after that of the pair before, and what stands there. */
  ghost predicate IsEntry(b: Blob, c: Blob, j: nat)
  {
    && 2 * j + 1 < |c| && c[2 * j].Index? && 0 <= c[2 * j].index < |b| && c[2 * j + 1] == b[c[2 * j].index]
    && (j > 0 ==> c[2 * j - 2].Index? && c[2 * j - 2].index < c[2 * j].index)
  }

  ghost predicate IsLargeEntry(b: Blob, c: Blob, clip: real, j: nat)
    requires IsData(b)
  {
    2 * j < |c| && c[2 * j].Index? && c[2 * j].index in LargeAt(b, clip, |b|)
  }

  lemma {:induction false} PairsAreEntries(b: Blob, clip: real, k: nat, j: nat)
    requires IsData(b) && k <= |b| && j < CountLarge(b, clip, k)
    ensures IsEntry(b, Pairs(b, clip, k), j)
    ensures Pairs(b, clip, k)[2 * j].index < k && IsLarge(Pairs(b, clip, k)[2 * j + 1], clip)
  {
    var n := CountLarge(b, clip, k - 1);
    if j < n {
      PairsAreEntries(b, clip, k - 1, j);
    } else if n > 0 {
      PairsAreEntries(b, clip, k - 1, n - 1);
    }
  }

  lemma CompressedIs(b: Blob, clip: real)
    requires IsData(b) && Pays(b, clip)
    ensures var c, n := Compressed(b, clip), |LargeAt(b, clip, |b|)|;
            && |c| == 2 * (if n == 0 then 1 else n)
            && (forall j: nat :: 2 * j < |c| ==> IsEntry(b, c, j))
            && (if n == 0 then c == [Index(0), b[0]] else forall j: nat :: 2 * j < |c| ==> IsLargeEntry(b, c, clip, j))
  {
    CountIsCardinality(b, clip, |b|);
    var c, n := Compressed(b, clip), |LargeAt(b, clip, |b|)|;
    if n > 0 {
      forall j: nat | 2 * j < |c|
        ensures IsEntry(b, c, j) && IsLargeEntry(b, c, clip, j)
      {
        PairsAreEntries(b, clip, |b|, j);
      }
    }
  }

  /** Compresses if less than half of the elements are above clip, into position and value of each of
      them in order. A blob of at least two elements never grows. */
  method TryCompress(b: Blob, clip: real) returns (compressed: bool, result: Blob)
    requires IsData(b)
    ensures compressed == Pays(b, clip)
    ensures compressed ==> result == Compressed(b, clip)
    ensures compressed <==> 2 * |LargeAt(b, clip, |b|)| < |b|
    ensures compressed ==> |result| == if LargeAt(b, clip, |b|) == {} then 2 else 2 * |LargeAt(b, clip, |b|)|
    ensures compressed && |b| >= 2 ==> |result| <= |b|
    ensures compressed ==> forall j: nat :: 2 * j < |result| ==> IsEntry(b, result, j)
    ensures compressed && LargeAt(b, clip, |b|) != {} ==>
              forall j: nat :: 2 * j < |result| ==> IsLargeEntry(b, result, clip, j)
    ensures compressed && LargeAt(b, clip, |b|) == {} ==> result == [Index(0), b[0]]
  {
    CountIsCardinality(b, clip, |b|);
    if Pays(b, clip) {
      CompressedIs(b, clip);
    }
    var nonZeroCount := 0;
    for i := 0 to |b|
      invariant nonZeroCount == CountLarge(b, clip, i)
    {
      if Abs(b[i].value) > clip {
        nonZeroCount := nonZeroCount + 1;
      }
    }
    if nonZeroCount * 2 >= |b| {
      return false, [];
    }
    if nonZeroCount == 0 {
      result := [Index(0), b[0]];
    } else {
      result := CopyLarge(b, clip, nonZeroCount);
    }
    compressed := true;
  }

  method CopyLarge(b: Blob, clip: real, nonZeroCount: nat) returns (result: Blob)
    requires IsData(b) && nonZeroCount == CountLarge(b, clip, |b|)
    ensures result == Pairs(b, clip, |b|)
  {
    result := seq(nonZeroCount * 2, _ => Index(0));
    var resultIndex := 0;
    for i := 0 to |b|
      invariant |result| == 2 * CountLarge(b, clip, |b|)
      invariant resultIndex == 2 * CountLarge(b, clip, i) <= |result|
      invariant result[..resultIndex] == Pairs(b, clip, i)
    {
      CountGrows(b, clip, i + 1, |b|);
      if Abs(b[i].value) > clip {
        ghost var before := result[..resultIndex];
        result := result[resultIndex := Index(i)];
        result := result[resultIndex + 1 := b[i]];
        assert result[..resultIndex + 2] == before + [Index(i), b[i]];
        resultIndex := resultIndex + 2;
      }
    }
  }

  lemma {:induction false} CountGrows(b: Blob, clip: real, k: nat, l: nat)
    requires k <= l <= |b|
    ensures CountLarge(b, clip, k) <= CountLarge(b, clip, l)
    decreases l
  {
    if k < l {
      CountGrows(b, clip, k, l - 1);
    }
  }

  /** None of the first n pairs is about position p. */
  ghost predicate NotBefore(c: Blob, p: nat, n: nat)
  {
    forall j: nat :: j < n && 2 * j < |c| && c[2 * j].Index? ==> c[2 * j].index != p
  }

  /** No pair after j, up to n, is about the same position. */
  ghost predicate NotAfter(c: Blob, j: nat, n: nat)
    requires 2 * j < |c|
  {
    forall k: nat :: j < k < n && 2 * k < |c| && c[2 * k].Index? && c[2 * j].Index? ==> c[2 * k].index != c[2 * j].index
  }

  /** Pair j has been written to b. */
  ghost predicate HasEntry(b: Blob, c: Blob, j: nat)
  {
    && 2 * j + 1 < |c| && c[2 * j].Index? && 0 <= c[2 * j].index < |b| && b[c[2 * j].index] == c[2 * j + 1]
  }

  lemma {:induction false} RestoredZero(c: Blob, count: nat, n: nat, p: nat)
    requires ArePairs(c, count, n) && p < count && NotBefore(c, p, n)
    ensures Restored(c, count, n)[p] == Value(0.0)
  {
    if n > 0 {
      assert IsPair(c, count, n - 1);
      RestoredZero(c, count, n - 1, p);
    }
  }

  lemma {:induction false} RestoredLast(c: Blob, count: nat, n: nat, j: nat)
    requires ArePairs(c, count, n) && j < n && NotAfter(c, j, n) && IsPair(c, count, j)
    ensures Restored(c, count, n)[c[2 * j].index] == c[2 * j + 1]
  {
    if j < n - 1 {
      assert IsPair(c, count, n - 1);
      RestoredLast(c, count, n - 1, j);
    }
  }

  /** Where a position is listed its last value comes back, everywhere else zero. */
  lemma RestoredIs(c: Blob, count: nat)
    requires |c| % 2 == 0 && ArePairs(c, count, |c| / 2)
    ensures forall p: nat :: p < count && NotBefore(c, p, |c| / 2) ==> Restored(c, count, |c| / 2)[p] == Value(0.0)
    ensures forall j: nat :: 2 * j < |c| && NotAfter(c, j, |c| / 2) ==>
              HasEntry(Restored(c, count, |c| / 2), c, j)
  {
    forall p: nat | p < count && NotBefore(c, p, |c| / 2)
      ensures Restored(c, count, |c| / 2)[p] == Value(0.0)
    {
      RestoredZero(c, count, |c| / 2, p);
    }
    forall j: nat | 2 * j < |c| && NotAfter(c, j, |c| / 2)
      ensures HasEntry(Restored(c, count, |c| / 2), c, j)
    {
      assert IsPair(c, count, j);
      RestoredLast(c, count, |c| / 2, j);
    }
  }

  method DeCompress(c: Blob, size: nat) returns (result: Blob)
    requires size % WIDTH == 0 && |c| % 2 == 0 && ArePairs(c, size / WIDTH, |c| / 2)
    ensures result == Restored(c, size / WIDTH, |c| / 2)
    ensures |result| == size / WIDTH
    ensures forall p: nat :: p < |result| && NotBefore(c, p, |c| / 2) ==> result[p] == Value(0.0)
    ensures forall j: nat :: 2 * j < |c| && NotAfter(c, j, |c| / 2) ==> HasEntry(result, c, j)
  {
    var originalDataCount := size / WIDTH;
    result := seq(originalDataCount, _ => Value(0.0));
    var i := 0;
    while i < |c|
      invariant i % 2 == 0 && i <= |c| && |result| == originalDataCount
      invariant result == Restored(c, originalDataCount, i / 2)
    {
      assert IsPair(c, originalDataCount, i / 2);
      var index, value := c[i].index, c[i + 1];
      result := result[index := value];
      i := i + 2;
    }
    RestoredIs(c, originalDataCount);
  }

  // ---- what a round trip does to one blob ----

  lemma {:induction false} RestoredPrefix(c: Blob, d: Blob, count: nat, j: nat)
    requires ArePairs(c + d, count, j) && 2 * j <= |c|
    ensures ArePairs(c, count, j) && Restored(c + d, count, j) == Restored(c, count, j)
  {
    forall i: nat | i < j
      ensures IsPair(c, count, i)
    {
      assert IsPair(c + d, count, i);
    }
    if j > 0 {
      RestoredPrefix(c, d, count, j - 1);
    }
  }

  lemma {:induction false} PairsArePairs(b: Blob, clip: real, k: nat)
    requires k <= |b|
    ensures ArePairs(Pairs(b, clip, k), |b|, CountLarge(b, clip, k))
  {
    if k > 0 {
      PairsArePairs(b, clip, k - 1);
      var less := Pairs(b, clip, k - 1);
      var n := CountLarge(b, clip, k - 1);
      if IsLarge(b[k - 1], clip) {
        var all := less + [Index(k - 1), b[k - 1]];
        forall j: nat | j < n + 1
          ensures IsPair(all, |b|, j)
        {
          assert j < n ==> IsPair(less, |b|, j);
        }
      }
    }
  }

  /** Large elements come back, the others are zero. */
  lemma {:induction false} LargeComeBack(b: Blob, clip: real, k: nat, i: nat)
    requires k <= |b| && i < |b|
    ensures ArePairs(Pairs(b, clip, k), |b|, CountLarge(b, clip, k))
    ensures Restored(Pairs(b, clip, k), |b|, CountLarge(b, clip, k))[i]
         == if i < k && IsLarge(b[i], clip) then b[i] else Value(0.0)
  {
    PairsArePairs(b, clip, k);
    if k > 0 {
      LargeComeBack(b, clip, k - 1, i);
      if IsLarge(b[k - 1], clip) {
        RestoredPrefix(Pairs(b, clip, k - 1), [Index(k - 1), b[k - 1]], |b|, CountLarge(b, clip, k - 1));
      }
    }
  }

  /** Every element is exact, or was at most clip and is now zero. */
  ghost predicate Close(b: Blob, r: Blob, clip: real)
  {
    |r| == |b| && forall i :: 0 <= i < |b| ==> CloseAt(b[i], r[i], clip)
  }

  predicate CloseAt(c: Cell, d: Cell, clip: real)
  {
    d == c || (c.Value? && Abs(c.value) <= clip && d == Value(0.0))
  }

  ghost predicate CanDecompress(c: Blob, count: nat)
  {
    |c| % 2 == 0 && ArePairs(c, count, |c| / 2)
  }

  /** What comes back of a compressed blob: its large elements, or the first one if there are none. */
  lemma WhatComesBack(b: Blob, clip: real, i: nat)
    requires IsData(b) && Pays(b, clip) && i < |b|
    ensures CanDecompress(Compressed(b, clip), |b|)
    ensures var c := Compressed(b, clip);
            Restored(c, |b|, |c| / 2)[i]
            == if IsLarge(b[i], clip) || (CountLarge(b, clip, |b|) == 0 && i == 0) then b[i] else Value(0.0)
  {
    var c := Compressed(b, clip);
    if CountLarge(b, clip, |b|) == 0 {
      assert IsPair(c, |b|, 0);
      assert Restored(c, |b|, 1) == Restored(c, |b|, 0)[0 := b[0]];
      NoneLarge(b, clip, |b|, i);
    } else {
      PairsArePairs(b, clip, |b|);
      LargeComeBack(b, clip, |b|, i);
    }
  }

  lemma BlobComesBack(b: Blob, clip: real)
    requires IsData(b) && Pays(b, clip)
    ensures CanDecompress(Compressed(b, clip), |b|)
    ensures var c := Compressed(b, clip); Close(b, Restored(c, |b|, |c| / 2), clip)
  {
    WhatComesBack(b, clip, 0);
    var c := Compressed(b, clip);
    forall i: nat | i < |b|
      ensures CloseAt(b[i], Restored(c, |b|, |c| / 2)[i], clip)
    {
      WhatComesBack(b, clip, i);
    }
  }

  lemma {:induction false} NoneLarge(b: Blob, clip: real, k: nat, i: nat)
    requires i < k <= |b| && CountLarge(b, clip, k) == 0
    ensures !IsLarge(b[i], clip)
  {
    if i < k - 1 {
      NoneLarge(b, clip, k - 1, i);
    }
  }

  // ---- the list of blobs ----

  /** The blobs between the first and, if there is one to skip, the last. */
  function DataSize(n: nat, skip: bool): int
  {
    if skip then n - 1 else n
  }

  function Body(b: Blob, clip: real): Blob
  {
    if Pays(b, clip) then Compressed(b, clip) else b
  }

  function SizeInfo(b: Blob, clip: real): int
  {
    if Pays(b, clip) then |b| * WIDTH else -1
  }

  function Filtered(blobs: seq<Blob>, clip: real, skip: bool): (out: seq<Blob>)
    requires blobs != []
  {
    var n := DataSize(|blobs|, skip);
    [blobs[0]]
    + (if n > 1 then
         [seq(n - 1, i requires 0 <= i < n - 1 => Index(SizeInfo(blobs[i + 1], clip)))]
         + seq(n - 1, i requires 0 <= i < n - 1 => Body(blobs[i + 1], clip))
       else [])
    + if skip then [blobs[|blobs| - 1]] else []
  }

  /** How a blob is sent: with few large elements as position and value of each, otherwise as it is. */
  ghost predicate IsSent(b: Blob, clip: real, info: Cell, sent: Blob)
    requires IsData(b)
  {
    if 2 * |LargeAt(b, clip, |b|)| < |b| then
      && info == Index(|b| * WIDTH)
      && |sent| == 2 * (if LargeAt(b, clip, |b|) == {} then 1 else |LargeAt(b, clip, |b|)|)
      && (forall j: nat :: 2 * j < |sent| ==> IsEntry(b, sent, j))
    else info == Index(-1) && sent == b
  }

  /** First blob, size information, the data blobs as they are sent, option blob. */
  ghost predicate IsFiltered(blobs: seq<Blob>, clip: real, skip: bool, out: seq<Blob>)
    requires blobs != [] && forall i :: 1 <= i < (if skip then |blobs| - 1 else |blobs|) ==> IsData(blobs[i])
  {
    var n := if skip then |blobs| - 1 else |blobs|;
    && |out| == (if n > 1 then |blobs| + 1 else if skip then 2 else 1)
    && out[0] == blobs[0] && (skip ==> out[|out| - 1] == blobs[|blobs| - 1])
    && (n > 1 ==> |out[1]| == n - 1)
    && forall i: nat :: 1 <= i < n ==> IsSent(blobs[i], clip, out[1][i - 1], out[i + 1])
  }

  lemma FilteredIs(blobs: seq<Blob>, clip: real, skip: bool)
    requires blobs != [] && forall i :: 1 <= i < DataSize(|blobs|, skip) ==> IsData(blobs[i])
    ensures IsFiltered(blobs, clip, skip, Filtered(blobs, clip, skip))
  {
    forall i: nat | 1 <= i < DataSize(|blobs|, skip)
      ensures IsSent(blobs[i], clip, Filtered(blobs, clip, skip)[1][i - 1], Filtered(blobs, clip, skip)[i + 1])
    {
      FilteredAt(blobs, clip, skip, i);
      CountIsCardinality(blobs[i], clip, |blobs[i]|);
      if Pays(blobs[i], clip) {
        CompressedIs(blobs[i], clip);
      }
    }
  }

  /** Compresses the blobs from the second to the n-th, those that pay. */
  method FilterData(blobs: seq<Blob>, clip: real, n: nat) returns (sizes: Blob, bodies: seq<Blob>)
    requires 1 < n <= |blobs| && forall i :: 1 <= i < n ==> IsData(blobs[i])
    ensures sizes == seq(n - 1, i requires 0 <= i < n - 1 => Index(SizeInfo(blobs[i + 1], clip)))
    ensures bodies == seq(n - 1, i requires 0 <= i < n - 1 => Body(blobs[i + 1], clip))
  {
    sizes := seq(n - 1, _ => Index(0));
    bodies := [];
    for i := 1 to n
      invariant |sizes| == n - 1 && |bodies| == i - 1
      invariant forall j :: 0 <= j < i - 1 ==> sizes[j] == Index(SizeInfo(blobs[j + 1], clip))
      invariant forall j :: 0 <= j < i - 1 ==> bodies[j] == Body(blobs[j + 1], clip)
    {
      var compressed, compressedBlob := TryCompress(blobs[i], clip);
      sizes := sizes[i - 1 := Index(if compressed then |blobs[i]| * WIDTH else -1)];
      bodies := bodies + [if compressed then compressedBlob else blobs[i]];
    }
  }

  method FilterIn(blobs: seq<Blob>, clip: real, skip: bool) returns (outputs: seq<Blob>)
    requires blobs != [] && forall i :: 1 <= i < DataSize(|blobs|, skip) ==> IsData(blobs[i])
    ensures outputs == Filtered(blobs, clip, skip)
    ensures IsFiltered(blobs, clip, skip, outputs)
  {
    outputs := [blobs[0]];
    var dataBlobsSize := DataSize(|blobs|, skip);
    if dataBlobsSize > 1 {
      var sizes, bodies := FilterData(blobs, clip, dataBlobsSize);
      outputs := outputs + ([sizes] + bodies);
    }
    if skip {
      outputs := outputs + [blobs[|blobs| - 1]];
    }
    FilteredIs(blobs, clip, skip);
  }

  /** Blob i of a filtered list can be restored from its size information. */
  ghost predicate CanRestore(sizes: Blob, b: Blob, i: nat)
  {
    && 2 <= i && i - 2 < |sizes| && sizes[i - 2].Index?
    && (sizes[i - 2].index >= 0 ==> sizes[i - 2].index % WIDTH == 0 && CanDecompress(b, sizes[i - 2].index / WIDTH))
  }

  ghost predicate CanFilterOut(blobs: seq<Blob>, skip: bool)
  {
    blobs != [] && forall i: nat :: 2 <= i < DataSize(|blobs|, skip) ==> CanRestore(blobs[1], blobs[i], i)
  }

  function RestoredBlob(sizes: Blob, b: Blob, i: nat): Blob
    requires CanRestore(sizes, b, i)
  {
    if sizes[i - 2].index >= 0 then Restored(b, sizes[i - 2].index / WIDTH, |b| / 2) else b
  }

  function RestoredBlobs(blobs: seq<Blob>, n: nat): (bodies: seq<Blob>)
    requires 2 <= n <= |blobs| && forall i: nat :: 2 <= i < n ==> CanRestore(blobs[1], blobs[i], i)
    ensures |bodies| == n - 2
    ensures forall i: nat :: 2 <= i < n ==> bodies[i - 2] == RestoredBlob(blobs[1], blobs[i], i)
  {
    if n == 2 then [] else RestoredBlobs(blobs, n - 1) + [RestoredBlob(blobs[1], blobs[n - 1], n - 1)]
  }

  /** None if the check on the number of blobs fails. */
  function Unfiltered(blobs: seq<Blob>, skip: bool): (out: Option<seq<Blob>>)
    requires CanFilterOut(blobs, skip)
  {
    var n := DataSize(|blobs|, skip);
    if |blobs| <= 1 then None
    else
      Some([blobs[0]]
           + (if n > 2 then RestoredBlobs(blobs, n) else [])
           + if skip then [blobs[|blobs| - 1]] else [])
  }

  method FilterOut(blobs: seq<Blob>, skip: bool) returns (outputs: Option<seq<Blob>>)
    requires CanFilterOut(blobs, skip)
    ensures outputs == Unfiltered(blobs, skip) && (outputs.None? <==> |blobs| <= 1)
  {
    if |blobs| <= 1 {
      return None;
    }
    var dataBlobsSize := DataSize(|blobs|, skip);
    var out := [blobs[0]];
    if dataBlobsSize > 2 {
      var bodies := RestoreBlobs(blobs, dataBlobsSize);
      out := out + bodies;
    }
    ghost var middle := if dataBlobsSize > 2 then RestoredBlobs(blobs, dataBlobsSize) else [];
    assert out == [blobs[0]] + middle;
    if skip {
      out := out + [blobs[|blobs| - 1]];
    }
    ghost var tail := if skip then [blobs[|blobs| - 1]] else [];
    assert out == [blobs[0]] + middle + tail;
    assert Unfiltered(blobs, skip) == Some([blobs[0]] + middle + tail);
    outputs := Some(out);
  }

  method RestoreBlobs(blobs: seq<Blob>, n: nat) returns (bodies: seq<Blob>)
    requires 2 <= n <= |blobs| && forall i: nat :: 2 <= i < n ==> CanRestore(blobs[1], blobs[i], i)
    ensures bodies == RestoredBlobs(blobs, n)
  {
    bodies := [];
    for i := 2 to n
      invariant bodies == RestoredBlobs(blobs, i)
    {
      assert CanRestore(blobs[1], blobs[i], i);
      var size := blobs[1][i - 2].index;
      var body := blobs[i];
      if size >= 0 {
        body := DeCompress(blobs[i], size);
      }
      bodies := bodies + [body];
    }
  }

  // ---- the round trip ----

  ghost predicate IsInput(blobs: seq<Blob>, skip: bool)
  {
    blobs != [] && forall i :: 1 <= i < DataSize(|blobs|, skip) ==> IsData(blobs[i])
  }

  lemma FilteredAt(blobs: seq<Blob>, clip: real, skip: bool, i: nat)
    requires IsInput(blobs, skip) && 1 <= i < DataSize(|blobs|, skip)
    ensures var out := Filtered(blobs, clip, skip);
            && |out| == |blobs| + 1 && DataSize(|out|, skip) == DataSize(|blobs|, skip) + 1
            && out[0] == blobs[0] && out[i + 1] == Body(blobs[i], clip)
            && |out[1]| == DataSize(|blobs|, skip) - 1 && out[1][i - 1] == Index(SizeInfo(blobs[i], clip))
            && (skip ==> out[|out| - 1] == blobs[|blobs| - 1])
  {
  }

  lemma BodyRestores(b: Blob, sizes: Blob, clip: real, i: nat)
    requires IsData(b) && 2 <= i && i - 2 < |sizes| && sizes[i - 2] == Index(SizeInfo(b, clip))
    ensures CanRestore(sizes, Body(b, clip), i) && Close(b, RestoredBlob(sizes, Body(b, clip), i), clip)
  {
    if Pays(b, clip) {
      BlobComesBack(b, clip);
    }
  }

  lemma FilteredCanBeUndone(blobs: seq<Blob>, clip: real, skip: bool)
    requires IsInput(blobs, skip)
    ensures CanFilterOut(Filtered(blobs, clip, skip), skip)
  {
    var out := Filtered(blobs, clip, skip);
    forall i: nat | 2 <= i < DataSize(|out|, skip)
      ensures CanRestore(out[1], out[i], i)
    {
      if DataSize(|blobs|, skip) > 1 {
        FilteredAt(blobs, clip, skip, i - 1);
        BodyRestores(blobs[i - 1], out[1], clip, i);
      }
    }
  }

  /** Blob i of the list is as it was, up to what clip allows for data. */
  ghost predicate BlobBack(blobs: seq<Blob>, back: seq<Blob>, clip: real, skip: bool, i: nat)
    requires i < |blobs| == |back|
  {
    if 1 <= i < DataSize(|blobs|, skip) then Close(blobs[i], back[i], clip) else back[i] == blobs[i]
  }

  ghost predicate AllBack(blobs: seq<Blob>, back: Option<seq<Blob>>, clip: real, skip: bool)
  {
    && back.Some? && |back.value| == |blobs|
    && forall i: nat :: i < |blobs| ==> BlobBack(blobs, back.value, clip, skip, i)
  }

  lemma TwoOrMoreComeBack(blobs: seq<Blob>, clip: real, skip: bool)
    requires IsInput(blobs, skip) && |blobs| >= 2
    ensures CanFilterOut(Filtered(blobs, clip, skip), skip)
    ensures AllBack(blobs, Unfiltered(Filtered(blobs, clip, skip), skip), clip, skip)
  {
    FilteredCanBeUndone(blobs, clip, skip);
    var back := Unfiltered(Filtered(blobs, clip, skip), skip);
    BackAreAsMany(blobs, clip, skip);
    forall i: nat | i < |blobs|
      ensures BlobBack(blobs, back.value, clip, skip, i)
    {
      OneComesBack(blobs, clip, skip, i);
    }
  }

  lemma BackAreAsMany(blobs: seq<Blob>, clip: real, skip: bool)
    requires IsInput(blobs, skip) && |blobs| >= 2
    requires CanFilterOut(Filtered(blobs, clip, skip), skip)
    ensures var back := Unfiltered(Filtered(blobs, clip, skip), skip);
            back.Some? && |back.value| == |blobs|
  {
    if DataSize(|blobs|, skip) > 1 {
      FilteredAt(blobs, clip, skip, 1);
    }
  }

  lemma OneComesBack(blobs: seq<Blob>, clip: real, skip: bool, i: nat)
    requires IsInput(blobs, skip) && |blobs| >= 2 && i < |blobs|
    requires CanFilterOut(Filtered(blobs, clip, skip), skip)
    requires var back := Unfiltered(Filtered(blobs, clip, skip), skip);
             back.Some? && |back.value| == |blobs|
    ensures BlobBack(blobs, Unfiltered(Filtered(blobs, clip, skip), skip).value, clip, skip, i)
  {
    var out := Filtered(blobs, clip, skip);
    var back := Unfiltered(out, skip).value;
    if 1 <= i < DataSize(|blobs|, skip) {
      FilteredAt(blobs, clip, skip, i);
      BodyRestores(blobs[i], out[1], clip, i + 1);
      assert back[i] == RestoredBlob(out[1], out[i + 1], i + 1);
    } else if DataSize(|blobs|, skip) > 1 {
      FilteredAt(blobs, clip, skip, 1);
    }
  }

  /** The round trip gives every blob back exactly when there are at least two. */
  lemma RoundTrip(blobs: seq<Blob>, clip: real, skip: bool)
    requires IsInput(blobs, skip)
    ensures CanFilterOut(Filtered(blobs, clip, skip), skip)
    ensures AllBack(blobs, Unfiltered(Filtered(blobs, clip, skip), skip), clip, skip) <==> |blobs| >= 2
  {
    FilteredCanBeUndone(blobs, clip, skip);
    if |blobs| >= 2 {
      TwoOrMoreComeBack(blobs, clip, skip);
    }
  }

  /** At clip 0 the round trip is the identity. */
  lemma ExactRoundTrip(blobs: seq<Blob>, skip: bool)
    requires IsInput(blobs, skip)
    ensures CanFilterOut(Filtered(blobs, 0.0, skip), skip)
    ensures Unfiltered(Filtered(blobs, 0.0, skip), skip) == Some(blobs) <==> |blobs| >= 2
  {
    RoundTrip(blobs, 0.0, skip);
    var back := Unfiltered(Filtered(blobs, 0.0, skip), skip);
    if |blobs| >= 2 {
      forall i: nat | i < |blobs|
        ensures back.value[i] == blobs[i]
      {
        assert BlobBack(blobs, back.value, 0.0, skip, i);
        CloseAtZero(blobs[i], back.value[i]);
      }
      assert back.value == blobs;
    } else {
      assert back.Some? ==> |back.value| == 2;
    }
  }

  lemma CloseAtZero(b: Blob, r: Blob)
    ensures Close(b, r, 0.0) ==> r == b
  {
    if Close(b, r, 0.0) {
      forall i: nat | i < |b|
        ensures r[i] == b[i]
      {
        assert CloseAt(b[i], r[i], 0.0);
      }
    }
  }

  /** Above clip exact, otherwise off by at most clip. */
  lemma ErrorIsBounded(b: Blob, r: Blob, clip: real, i: nat)
    requires IsData(b) && Close(b, r, clip) && i < |b| && clip >= 0.0
    ensures r[i].Value? && Abs(r[i].value - b[i].value) <= clip
    ensures Abs(b[i].value) > clip ==> r[i] == b[i]
  {
    assert CloseAt(b[i], r[i], clip);
  }
}
