/** The all-reduce engine: small data is gathered everywhere and reduced locally, large data goes
    through reduce-scatter and all-gather. One object stands for the engines of all ranks; row r of
    a buffer array belongs to rank r. Sizes are counted in elements. */
module AllreduceEngine {
  import opened DivMod
  import opened Buffers
  import opened Topology
  import opened Reduction
  import opened HalvingInvariant
  import opened ReduceScatter
  import opened Allgather

  const SMALL_PACKAGE := 4096
  const INITIAL_BUFFER := 1024 * 1024

  /** ceil(count / n), at least 1. */
  function Share(count: nat, n: nat): nat
    requires n > 0
  {
    if count == 0 then 1 else (count + n - 1) / n
  }

  /** The least number of elements with which n ranks cover all. */
  lemma ShareCovers(count: nat, n: nat)
    requires n > 0
    ensures Share(count, n) == if (count + n - 1) / n < 1 then 1 else (count + n - 1) / n
    ensures Share(count, n) * (n - 1) + Share(count, n) >= count
    ensures (Share(count, n) - 1) * n < count || count == 0
  {
    var q := (count + n - 1) / n;
    assert count + n - 1 == q * n + (count + n - 1) % n;
    if count == 0 {
      DivUnique(n - 1, n, 0, n - 1);
    } else if q == 0 {
      assert false;
    }
  }

  /** The blocks of the large-data path: ceil(count / n) elements each, as long as there are any. */
  method AssignBlocks(count: nat, n: nat) returns (blockStart: seq<nat>, blockLen: seq<nat>)
    requires n > 0
    ensures |blockStart| == n && Layout(blockStart, blockLen, count)
    ensures forall i :: 0 <= i < n ==> blockLen[i] <= Share(count, n)
    ensures forall i :: 0 <= i < n - 1 ==> blockLen[i] == Share(count, n) || blockStart[i + 1] == count
  {
    var step := (count + n - 1) / n;
    if step < 1 {
      step := 1;
    }
    ShareCovers(count, n);
    blockStart, blockLen := [0], [];
    for i := 0 to n - 1
      invariant |blockStart| == i + 1 && |blockLen| == i
      invariant blockStart[0] == 0 && blockStart[i] <= count
      invariant forall j: nat :: j < i ==> EndsAtNext(blockStart, blockLen, j)
      invariant StartsAt(blockStart[i], step, i) || blockStart[i] == count
      invariant forall j :: 0 <= j < i ==>
                  blockLen[j] <= step && (blockLen[j] == step || blockStart[j + 1] == count)
    {
      var len := if step < count - blockStart[i] then step else count - blockStart[i];
      ghost var starts, lens := blockStart, blockLen;
      blockLen := blockLen + [len];
      NextBlock(step * i, step, i);
      blockStart := blockStart + [blockStart[i] + len];
      forall j: nat | j < i
        ensures EndsAtNext(blockStart, blockLen, j)
      {
        assert EndsAtNext(starts, lens, j);
      }
    }
    ghost var lens := blockLen;
    blockLen := blockLen + [count - blockStart[n - 1]];
    forall i: nat | i < |blockStart| - 1
      ensures EndsAtNext(blockStart, blockLen, i)
    {
      assert EndsAtNext(blockStart, lens, i);
    }
  }

  /** The blocks of the small-data path: one whole input for every rank. */
  method AssignEqualBlocks(sendSize: nat, n: nat) returns (blockStart: seq<nat>, blockLen: seq<nat>)
    requires n > 0
    ensures |blockStart| == n && Layout(blockStart, blockLen, sendSize * n)
    ensures forall i :: 0 <= i < n ==> StartsAt(blockStart[i], sendSize, i) && blockLen[i] == sendSize
  {
    blockStart, blockLen := [0], [sendSize];
    for i := 1 to n
      invariant |blockStart| == |blockLen| == i && blockStart[0] == 0
      invariant forall j :: 0 <= j < i ==> StartsAt(blockStart[j], sendSize, j) && blockLen[j] == sendSize
      invariant forall j: nat :: j < i - 1 ==> EndsAtNext(blockStart, blockLen, j)
    {
      NextBlock(blockStart[i - 1], sendSize, i - 1);
      blockStart := blockStart + [blockStart[i - 1] + blockLen[i - 1]];
      blockLen := blockLen + [sendSize];
    }
    NextBlock(blockStart[n - 1], sendSize, n - 1);
  }

  /** The i-th block of equal length. */
  ghost predicate StartsAt(start: nat, sendSize: nat, i: int)
  {
    start == sendSize * i
  }

  lemma NextBlock(start: nat, sendSize: nat, i: nat)
    requires StartsAt(start, sendSize, i)
    ensures StartsAt(start + sendSize, sendSize, i + 1)
  {
  }

  class AllreduceEngine<T(0, !new)> {
    const n: nat
    const bruckMaps: seq<BruckMap>
    const halvingMaps: seq<RecursiveHalvingMap>
    var bufferSize: nat
    var buffer: array<seq<T>>

    ghost predicate Valid()
      reads this, buffer
    {
      && n > 0
      && AreBruckMaps(bruckMaps, n)
      && |halvingMaps| == n && AreHalvingMaps(halvingMaps, n, halvingMaps[0].k)
      && RowsOf(buffer[..], n, bufferSize)
    }

    constructor (numMachines: nat)
      requires numMachines > 0
      ensures Valid() && n == numMachines && fresh(buffer) && bufferSize == 1_048_576
    {
      var bruck, halving := ConstructMaps(numMachines);
      var rows := NewBuffers<T>(numMachines, INITIAL_BUFFER);
      n, bruckMaps, halvingMaps := numMachines, bruck, halving;
      buffer, bufferSize := rows, INITIAL_BUFFER;
    }

    /** Small data is gathered everywhere, large data reduced and scattered. */
    predicate IsSmall(count: nat, typeSize: nat)
    {
      count < n || count * typeSize < SMALL_PACKAGE
    }

    /** Every rank's output is the elementwise reduction of all inputs, in rank order. Small data may be
        reduced in place, and so may any data on a single machine. */
    method Allreduce(input: array<seq<T>>, count: nat, typeSize: nat, output: array<seq<T>>, red: (T, T) -> T)
      requires Valid() && typeSize > 0 && input != buffer && output != buffer
      requires RowsOf(input[..], n, count) && RowsOf(output[..], n, count)
      requires !IsSmall(count, typeSize) ==> MayServe(input, output) && Associative(red) && Commutative(red)
      modifies this, buffer, input, output
      ensures Valid() && (buffer == old(buffer) || fresh(buffer))
      ensures RowsOf(input[..], n, count) && RowsOf(output[..], n, count) && RowsOf(old(input[..]), n, count)
      ensures forall r: nat :: r < n ==> output[r] == Reduced(red, old(input[..]), count)
      ensures (count < n || count * typeSize < 4096) && input != output ==> input[..] == old(input[..])
      ensures !(count < n || count * typeSize < 4096) ==> buffer == old(buffer) && buffer[..] == old(buffer[..])
    {
      ghost var inputs: seq<seq<T>> := input[..];
      if IsSmall(count, typeSize) {
        AllreduceByAllGather(input, count, output, red, inputs);
        return;
      }
      var blockStart, blockLen := AssignBlocks(count, n);
      ReduceAndScatter(input, count, blockStart, blockLen, output, halvingMaps, halvingMaps[0].k, red, inputs);
      ghost var blocks := Cut(Reduced(red, inputs, count), blockStart, blockLen);
      assert SendReady(output[..], output[..], blocks, count);
      GatherBlocks(output, count, blockStart, blockLen, output, bruckMaps, blocks, count);
      OrderedIsReduced(output[..], Reduced(red, inputs, count), blockStart, blockLen);
    }

    /** All ranks send the same amount; every rank ends with all inputs in rank order. */
    method AllgatherEqual(input: array<seq<T>>, sendSize: nat, output: array<seq<T>>)
      requires Valid() && input != output && output != buffer
      requires RowsOf(input[..], n, sendSize) && RowsOf(output[..], n, sendSize * n)
      modifies output
      ensures Valid() && AllInOrder(output[..], input[..], sendSize * n)
      ensures forall r: nat :: r < n ==> HoldsInputs(output[r], input[..], sendSize, 0)
    {
      var blockStart, blockLen := AssignEqualBlocks(sendSize, n);
      GatherBlocks(input, sendSize * n, blockStart, blockLen, output, bruckMaps, input[..], sendSize * n);
      GatheredInputs(output[..], input[..], sendSize, sendSize * n);
    }

    /** The small-data path, right for any reducer: all ranks compute the same left fold. The output may
        be the input. */
    method AllreduceByAllGather(input: array<seq<T>>, size: nat, output: array<seq<T>>, red: (T, T) -> T,
                                ghost inputs: seq<seq<T>>)
      requires Valid() && input != buffer && output != buffer
      requires input[..] == inputs && RowsOf(inputs, n, size) && RowsOf(output[..], n, size)
      modifies this, buffer, output
      ensures Valid() && (buffer == old(buffer) || fresh(buffer)) && RowsOf(output[..], n, size)
      ensures forall r: nat :: r < n ==> output[r] == Reduced(red, inputs, size)
      ensures input != output ==> input[..] == inputs
      ensures bufferSize == if size * n > old(bufferSize) then size * n else old(bufferSize)
      ensures size * n <= old(bufferSize) ==> buffer == old(buffer)
    {
      var blockStart, blockLen := AssignEqualBlocks(size, n);
      if size * n > bufferSize {
        bufferSize := size * n;
        buffer := NewBuffers(n, size * n);
      }
      GatherBlocks(input, size * n, blockStart, blockLen, buffer, bruckMaps, inputs, bufferSize);
      GatheredInputs(buffer[..], inputs, size, bufferSize);
      ReduceGathered(buffer, blockStart, output, red, inputs, size, bufferSize);
    }
  }

  method NewBuffers<T(0)>(n: nat, size: nat) returns (rows: array<seq<T>>)
    ensures fresh(rows) && RowsOf(rows[..], n, size)
  {
    var filler: T := *;
    rows := new seq<T>[n](_ => seq(size, _ => filler));
  }

  method ConstructMaps(n: nat) returns (bruck: seq<BruckMap>, halving: seq<RecursiveHalvingMap>)
    requires n > 0
    ensures AreBruckMaps(bruck, n)
    ensures |halving| == n && AreHalvingMaps(halving, n, halving[0].k)
  {
    bruck, halving := [], [];
    for r := 0 to n
      invariant |bruck| == |halving| == r
      invariant forall q: nat :: q < r ==> IsBruckMap(bruck[q], q, n)
      invariant forall q: nat :: q < r ==> IsHalvingMap(halving[q], q, n)
    {
      var b := ConstructBruckMap(r, n);
      var h := ConstructHalvingMap(r, n);
      bruck := bruck + [b];
      halving := halving + [h];
    }
    SameDepth(halving, n);
  }

  lemma SameDepth(maps: seq<RecursiveHalvingMap>, n: nat)
    requires |maps| == n > 0 && forall q: nat :: q < n ==> IsHalvingMap(maps[q], q, n)
    ensures AreHalvingMaps(maps, n, maps[0].k)
  {
    forall q: nat | q < n
      ensures maps[q].k == maps[0].k
    {
      FloorLogUnique(maps[q].k, maps[0].k, n);
    }
  }

  lemma OrderedIsReduced<T>(rows: seq<seq<T>>, v: seq<T>, blockStart: seq<nat>, blockLen: seq<nat>)
    requires Layout(blockStart, blockLen, |v|)
    requires AllInOrder(rows, Cut(v, blockStart, blockLen), |v|)
    ensures forall r: nat :: r < |rows| ==> rows[r] == v
  {
    var blocks := Cut(v, blockStart, blockLen);
    CutJoins(v, blockStart, blockLen, |blockStart|);
    forall r: nat | r < |rows|
      ensures rows[r] == v
    {
      assert StartsWith(rows[r], Cat(blocks, 0, |blocks|));
    }
  }

  // ---- local reduction of gathered inputs ----

  ghost predicate BlockAt<T>(row: seq<T>, block: seq<T>, j: nat, size: nat)
  {
    size * j + size <= |row| && row[size * j..size * j + size] == block
  }

  /** The row holds the inputs one after the other. */
  ghost predicate HoldsInputs<T>(row: seq<T>, inputs: seq<seq<T>>, size: nat, from: nat)
  {
    forall j: nat :: from <= j < |inputs| ==> BlockAt(row, inputs[j], j, size)
  }

  /** The first i inputs are reduced into the front of the row, the others still stand behind it. */
  ghost predicate Accumulated<T>(row: seq<T>, red: (T, T) -> T, inputs: seq<seq<T>>, size: nat, i: nat)
    requires 0 < i <= |inputs| && SameSize(inputs, size)
  {
    StartsWith(row, Reduced(red, inputs[..i], size)) && HoldsInputs(row, inputs, size, i)
  }

  lemma AccumulatedFirst<T>(row: seq<T>, red: (T, T) -> T, inputs: seq<seq<T>>, size: nat)
    requires inputs != [] && SameSize(inputs, size) && HoldsInputs(row, inputs, size, 0)
    ensures Accumulated(row, red, inputs, size, 1)
  {
    assert BlockAt(row, inputs[0], 0, size);
    assert Reduced(red, inputs[..1], size) == inputs[0];
  }

  lemma ReducedOneMore<T>(red: (T, T) -> T, inputs: seq<seq<T>>, size: nat, i: nat)
    requires 0 < i < |inputs| && SameSize(inputs, size)
    ensures Reduced(red, inputs[..i + 1], size)
         == seq(size, e requires 0 <= e < size => red(inputs[i][e], Reduced(red, inputs[..i], size)[e]))
  {
    forall e: nat | e < size
      ensures Reduced(red, inputs[..i + 1], size)[e] == red(inputs[i][e], Reduced(red, inputs[..i], size)[e])
    {
      var column := Column(inputs[..i + 1], size, e);
      assert column[..i] == Column(inputs[..i], size, e);
    }
  }

  /** The reducer works on the front of the row only, and there on one more input. */
  lemma AccumulateOneMore<T>(row: seq<T>, red: (T, T) -> T, inputs: seq<seq<T>>, size: nat, i: nat)
    requires 0 < i < |inputs| && SameSize(inputs, size) && Accumulated(row, red, inputs, size, i)
    ensures BlockAt(row, inputs[i], i, size) && size <= |row|
    ensures Accumulated(ReduceInto(red, row, 0, inputs[i]), red, inputs, size, i + 1)
  {
    var row' := ReduceInto(red, row, 0, inputs[i]);
    ReducedOneMore(red, inputs, size, i);
    assert row'[..size] == Reduced(red, inputs[..i + 1], size);
    forall j: nat | i + 1 <= j < |inputs|
      ensures BlockAt(row', inputs[j], j, size)
    {
      assert BlockAt(row, inputs[j], j, size);
      Multiples(size, j);
      assert row'[size * j..size * j + size] == row[size * j..size * j + size];
    }
  }

  lemma Multiples(size: nat, j: nat)
    requires j > 0
    ensures size * j >= size
  {
    assert size * (j - 1) >= 0;
  }

  method ReduceRow<T>(row: seq<T>, blockStart: seq<nat>, red: (T, T) -> T, ghost inputs: seq<seq<T>>, size: nat)
    returns (result: seq<T>)
    requires inputs != [] && SameSize(inputs, size) && |blockStart| == |inputs|
    requires forall i :: 0 <= i < |inputs| ==> StartsAt(blockStart[i], size, i)
    requires HoldsInputs(row, inputs, size, 0)
    ensures |result| == |row| && StartsWith(result, Reduced(red, inputs, size))
  {
    result := row;
    AccumulatedFirst(row, red, inputs, size);
    for i := 1 to |blockStart|
      invariant |result| == |row| && Accumulated(result, red, inputs, size, i)
    {
      AccumulateOneMore(result, red, inputs, size, i);
      result := ReduceInto(red, result, 0, result[blockStart[i]..blockStart[i] + size]);
    }
    assert inputs[..|blockStart|] == inputs;
  }

  method ReduceGathered<T>(buffer: array<seq<T>>, blockStart: seq<nat>, output: array<seq<T>>, red: (T, T) -> T,
                           ghost inputs: seq<seq<T>>, size: nat, ghost cap: nat)
    requires inputs != [] && SameSize(inputs, size) && |blockStart| == |inputs| && buffer != output
    requires forall i :: 0 <= i < |inputs| ==> StartsAt(blockStart[i], size, i)
    requires RowsOf(buffer[..], |inputs|, cap) && RowsOf(output[..], |inputs|, size)
    requires forall r: nat :: r < |inputs| ==> HoldsInputs(buffer[r], inputs, size, 0)
    modifies buffer, output
    ensures RowsOf(buffer[..], |inputs|, cap) && RowsOf(output[..], |inputs|, size)
    ensures forall r: nat :: r < output.Length ==> output[r] == Reduced(red, inputs, size)
  {
    ghost var before: seq<seq<T>> := buffer[..];
    ghost var result := Reduced(red, inputs, size);
    assert forall r: nat :: r < |inputs| ==> |before[r]| == cap && |output[..][r]| == size;
    for r := 0 to output.Length
      invariant forall q: nat :: q < buffer.Length ==> |buffer[q]| == cap && |output[q]| == size
      invariant forall q: nat :: r <= q < buffer.Length ==> buffer[q] == before[q]
      invariant forall q: nat :: q < r ==> output[q] == result
    {
      ReduceOne(buffer, blockStart, output, red, inputs, size, r);
    }
  }

  method ReduceOne<T>(buffer: array<seq<T>>, blockStart: seq<nat>, output: array<seq<T>>, red: (T, T) -> T,
                      ghost inputs: seq<seq<T>>, size: nat, r: nat)
    requires inputs != [] && SameSize(inputs, size) && |blockStart| == |inputs| && buffer != output
    requires forall i :: 0 <= i < |inputs| ==> StartsAt(blockStart[i], size, i)
    requires r < buffer.Length == output.Length && |output[r]| == size && HoldsInputs(buffer[r], inputs, size, 0)
    modifies buffer, output
    ensures buffer[..] == old(buffer[..])[r := buffer[r]] && |buffer[r]| == |old(buffer[r])|
    ensures output[..] == old(output[..])[r := Reduced(red, inputs, size)]
  {
    buffer[r] := ReduceRow(buffer[r], blockStart, red, inputs, size);
    var front := buffer[r][..size];
    WriteWhole(output[r], front);
    output[r] := Write(output[r], 0, front);
  }

  lemma WriteWhole<T>(s: seq<T>, data: seq<T>)
    requires |data| == |s|
    ensures Write(s, 0, data) == data
  {
  }

  lemma GatheredInputs<T>(rows: seq<seq<T>>, inputs: seq<seq<T>>, size: nat, cap: nat)
    requires AllInOrder(rows, inputs, cap) && SameSize(inputs, size)
    ensures RowsOf(rows, |inputs|, cap)
    ensures forall r: nat :: r < |inputs| ==> HoldsInputs(rows[r], inputs, size, 0)
  {
    forall r: nat | r < |inputs|
      ensures HoldsInputs(rows[r], inputs, size, 0)
    {
      RowHoldsInputs(rows[r], inputs, size);
    }
  }

  lemma RowHoldsInputs<T>(row: seq<T>, inputs: seq<seq<T>>, size: nat)
    requires inputs != [] && SameSize(inputs, size) && StartsWith(row, Cat(inputs, 0, |inputs|))
    ensures HoldsInputs(row, inputs, size, 0)
  {
    forall j: nat | j < |inputs|
      ensures BlockAt(row, inputs[j], j, size)
    {
      CatOfEqual(inputs, size, |inputs|, j);
      BlockInPrefix(row, Cat(inputs, 0, |inputs|), inputs[j], j, size);
    }
  }

  lemma BlockInPrefix<T>(row: seq<T>, p: seq<T>, block: seq<T>, j: nat, size: nat)
    requires StartsWith(row, p) && BlockAt(p, block, j, size)
    ensures BlockAt(row, block, j, size)
  {
    var at := size * j;
    assert row[at..at + size] == row[..|p|][at..at + size];
  }

  lemma {:induction false} CatOfEqual<T>(inputs: seq<seq<T>>, size: nat, cnt: nat, j: nat)
    requires inputs != [] && SameSize(inputs, size) && j < cnt <= |inputs|
    ensures |Cat(inputs, 0, cnt)| == size * cnt
    ensures BlockAt(Cat(inputs, 0, cnt), inputs[j], j, size)
  {
    DivUnique(cnt - 1, |inputs|, 0, cnt - 1);
    var all, less := Cat(inputs, 0, cnt), Cat(inputs, 0, cnt - 1);
    BlockBounds(size, cnt, j);
    if cnt > 1 {
      CatOfEqual(inputs, size, cnt - 1, if j < cnt - 1 then j else 0);
    }
    assert |less| == size * (cnt - 1);
    if j < cnt - 1 {
      assert all[size * j..size * j + size] == less[size * j..size * j + size];
    }
  }

  lemma BlockBounds(size: nat, cnt: nat, j: nat)
    requires j < cnt
    ensures size * j + size <= size * cnt
    ensures size * cnt == size * (cnt - 1) + size
    ensures j < cnt - 1 ==> size * j + size <= size * (cnt - 1)
  {
    MulMonotone(j + 1, cnt, size);
    if j < cnt - 1 {
      MulMonotone(j + 1, cnt - 1, size);
    }
  }
}
