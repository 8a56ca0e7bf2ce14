/** The Bruck all-gather, run by all ranks in matched rounds. Row r of an array is a buffer of rank r. */
module Allgather {
  import opened Sums
  import opened DivMod
  import opened Buffers
  import opened Topology

  ghost predicate AreBruckMaps(maps: seq<BruckMap>, n: nat)
  {
    && |maps| == n > 0
    && forall r: nat :: r < n ==> IsBruckMap(maps[r], r, n)
  }

  /** Every rank holds, at the front of its buffer, the acc blocks that start with its own. */
  ghost predicate Gathered<T>(rows: seq<seq<T>>, blocks: seq<seq<T>>, acc: nat, cap: nat)
  {
    && |rows| == |blocks| > 0
    && forall r: nat :: r < |rows| ==> |rows[r]| == cap && StartsWith(rows[r], Cat(blocks, r, acc))
  }

  /** Bytes in cnt consecutive blocks from the given one on, counted cyclically. */
  method BytesOf<T>(blockLen: seq<nat>, from: nat, cnt: nat, ghost blocks: seq<seq<T>>) returns (len: nat)
    requires HasLengths(blocks, blockLen) && |blocks| > 0
    ensures len == |Cat(blocks, from, cnt)|
  {
    len := 0;
    for j := 0 to cnt
      invariant len == |Cat(blocks, from, j)|
    {
      len := len + blockLen[(from + j) % |blockLen|];
    }
  }

  /** What every rank sends in round i: its first cur blocks. */
  method Outgoing<T>(output: array<seq<T>>, blockLen: seq<nat>, cur: nat, acc: nat,
                     ghost blocks: seq<seq<T>>, ghost cap: nat) returns (sent: seq<seq<T>>)
    requires HasLengths(blocks, blockLen) && cur <= acc
    requires Gathered(output[..], blocks, acc, cap)
    ensures |sent| == |blocks| && forall r: nat :: r < |sent| ==> sent[r] == Cat(blocks, r, cur)
  {
    sent := [];
    for r := 0 to output.Length
      invariant |sent| == r && forall q: nat :: q < r ==> sent[q] == Cat(blocks, q, cur)
    {
      var sendLen := BytesOf(blockLen, r, cur, blocks);
      CatSplit(blocks, r, cur, acc - cur);
      assert output[..][r] == output[r];
      assert output[r][..sendLen] == Cat(blocks, r, cur);
      sent := sent + [output[r][..sendLen]];
    }
  }

  /** One round: cur more blocks come in from the rank acc places ahead. */
  method BruckRound<T>(output: array<seq<T>>, maps: seq<BruckMap>, blockStart: seq<nat>, blockLen: seq<nat>,
                       i: nat, acc: nat, cur: nat, ghost blocks: seq<seq<T>>, ghost size: nat, ghost cap: nat)
    requires AreBruckMaps(maps, |blocks|) && i < maps[0].k
    requires Layout(blockStart, blockLen, size) && HasLengths(blocks, blockLen) && size <= cap
    requires acc == Pow2(i) && cur <= acc && acc + cur <= |blocks|
    requires Gathered(output[..], blocks, acc, cap)
    modifies output
    ensures Gathered(output[..], blocks, acc + cur, cap)
  {
    ghost var before: seq<seq<T>> := output[..];
    var n := output.Length;
    var sent := Outgoing(output, blockLen, cur, acc, blocks, cap);
    for r := 0 to n
      invariant forall q: nat :: q < r ==> |output[q]| == cap && StartsWith(output[q], Cat(blocks, q, acc + cur))
      invariant forall q: nat :: r <= q < n ==> output[q] == before[q]
    {
      RoundMatches(maps, |blocks|, i, r);
      var incoming := maps[r].inRanks[i];
      assert incoming == (r + acc) % n && maps[incoming].outRanks[i] == r;
      output[r] := ReceiveBlocks(output[r], sent[incoming], r, acc, cur, blockStart, blockLen, blocks, size, cap);
    }
  }

  /** The message goes behind the blocks already there; it has the length expected and it fits. */
  method ReceiveBlocks<T>(row: seq<T>, msg: seq<T>, r: nat, acc: nat, cur: nat,
                          blockStart: seq<nat>, blockLen: seq<nat>,
                          ghost blocks: seq<seq<T>>, ghost size: nat, ghost cap: nat) returns (row': seq<T>)
    requires Layout(blockStart, blockLen, size) && HasLengths(blocks, blockLen) && size <= cap
    requires r < |blocks| && acc + cur <= |blocks| && |row| == cap && StartsWith(row, Cat(blocks, r, acc))
    requires msg == Cat(blocks, (r + acc) % |blocks|, cur)
    ensures |row'| == cap && StartsWith(row', Cat(blocks, r, acc + cur))
  {
    var writePtr := BytesOf(blockLen, r, acc, blocks);
    var needRecvCnt := BytesOf(blockLen, (r + acc) % |blockLen|, cur, blocks);
    assert |msg| == needRecvCnt;
    RoomFor(blocks, blockStart, blockLen, size, r, acc, cur);
    WriteAtEnd(row, Cat(blocks, r, acc), msg);
    row' := Write(row, writePtr, msg);
  }

  lemma RoundMatches(maps: seq<BruckMap>, n: nat, i: nat, r: nat)
    requires AreBruckMaps(maps, n) && i < maps[0].k && r < n
    ensures maps[r].k == maps[0].k
    ensures 0 <= maps[r].inRanks[i] < n && maps[r].inRanks[i] == (r + Pow2(i)) % n
    ensures i < maps[maps[r].inRanks[i]].k && maps[maps[r].inRanks[i]].outRanks[i] == r
  {
    CeilLogUnique(maps[r].k, maps[0].k, n);
    assert IsBruckMap(maps[r], r, n) && IsBelow(i, n);
    ThereAndBack(r, i, n);
    BruckRanksMatch(maps[r], maps[InRank(r, i, n)], r, InRank(r, i, n), n, i);
  }

  lemma RoomFor<T>(blocks: seq<seq<T>>, blockStart: seq<nat>, blockLen: seq<nat>, size: nat, r: nat, acc: nat, cur: nat)
    requires Layout(blockStart, blockLen, size) && HasLengths(blocks, blockLen)
    requires r < |blocks| && acc + cur <= |blocks|
    ensures Cat(blocks, r, acc + cur) == Cat(blocks, r, acc) + Cat(blocks, (r + acc) % |blocks|, cur)
    ensures |Cat(blocks, r, acc)| + |Cat(blocks, (r + acc) % |blocks|, cur)| <= size
  {
    CatSplit(blocks, r, acc, cur);
    CatFits(blocks, blockStart, blockLen, size, r, acc + cur);
  }

  /** Every rank's buffer starts with all blocks in rank order. */
  ghost predicate AllInOrder<T>(rows: seq<seq<T>>, blocks: seq<seq<T>>, cap: nat)
  {
    && |rows| == |blocks| > 0
    && forall r: nat :: r < |rows| ==> |rows[r]| == cap && StartsWith(rows[r], Cat(blocks, 0, |blocks|))
  }

  /** Rotates every rank's blocks into rank order by three reversals in place. */
  method RotateRight<T>(output: array<seq<T>>, blockStart: seq<nat>, blockLen: seq<nat>,
                        ghost blocks: seq<seq<T>>, size: nat, ghost cap: nat)
    requires Layout(blockStart, blockLen, size) && HasLengths(blocks, blockLen) && size <= cap
    requires Gathered(output[..], blocks, |blocks|, cap)
    modifies output
    ensures AllInOrder(output[..], blocks, cap)
  {
    ghost var before: seq<seq<T>> := output[..];
    for r := 0 to output.Length
      invariant forall q: nat :: q < r ==> |output[q]| == cap && StartsWith(output[q], Cat(blocks, 0, |blocks|))
      invariant forall q: nat :: r <= q < output.Length ==> output[q] == before[q]
    {
      BackInOrder(before[r], blocks, blockStart, blockLen, size, r);
      output[r] := ReverseRange(output[r], 0, size);
      output[r] := ReverseRange(output[r], 0, blockStart[r]);
      output[r] := ReverseRange(output[r], blockStart[r], size);
    }
  }

  lemma BackInOrder<T>(s: seq<T>, blocks: seq<seq<T>>, blockStart: seq<nat>, blockLen: seq<nat>, size: nat, r: nat)
    requires Layout(blockStart, blockLen, size) && HasLengths(blocks, blockLen) && r < |blocks|
    requires |s| >= size && StartsWith(s, Cat(blocks, r, |blocks|))
    ensures blockStart[r] <= size
    ensures StartsWith(ReverseRange(ReverseRange(ReverseRange(s, 0, size), 0, blockStart[r]), blockStart[r], size),
                       Cat(blocks, 0, |blocks|))
  {
    CatRotation(blocks, r);
    CatFromZero(blocks, blockStart, blockLen, size, r);
    CatFits(blocks, blockStart, blockLen, size, r, |blocks|);
    ThreeReversalsRotate(s, Cat(blocks, r, |blocks| - r), Cat(blocks, 0, r));
  }

  /** Every rank starts with its own block; after the last round it has all of them. */
  lemma RoundsReachAll(k: nat, n: nat, i: nat, acc: nat, cur: int)
    requires IsCeilLog(k, n) && i < k && acc == Pow2(i)
    requires cur == if acc < n - acc then acc else n - acc
    ensures 0 <= cur <= acc && acc + cur <= n
    ensures i + 1 < k ==> acc + cur == Pow2(i + 1)
    ensures i + 1 == k ==> acc + cur == n
  {
    assert IsBelow(i, n);
    assert i + 1 < k ==> IsBelow(i + 1, n);
  }

  lemma NextCount(maps: seq<BruckMap>, n: nat, i: nat, acc: nat, cur: int)
    requires AreBruckMaps(maps, n) && i < maps[0].k && acc == Pow2(i)
    requires cur == if acc < n - acc then acc else n - acc
    ensures 0 <= cur <= acc && acc + cur <= n
    ensures acc + cur == if i + 1 < maps[0].k then Pow2(i + 1) else n
  {
    RoundsReachAll(maps[0].k, n, i, acc, cur);
  }

  /** Gathers block r of every rank r on every rank, in rank order, whatever the lengths.
      The send buffer may be the receive buffer itself. */
  method GatherBlocks<T>(input: array<seq<T>>, size: nat, blockStart: seq<nat>, blockLen: seq<nat>,
                         output: array<seq<T>>, maps: seq<BruckMap>, ghost blocks: seq<seq<T>>, ghost cap: nat)
    requires AreBruckMaps(maps, |blocks|)
    requires Layout(blockStart, blockLen, size) && HasLengths(blocks, blockLen) && size <= cap
    requires SendReady(input[..], output[..], blocks, cap)
    modifies output
    ensures AllInOrder(output[..], blocks, cap)
  {
    CopyOwnBlock(input, size, blockStart, blockLen, output, blocks, cap);
    var accumulatedBlock := 1;
    for i := 0 to maps[0].k
      invariant accumulatedBlock == if i < maps[0].k then Pow2(i) else |blocks|
      invariant Gathered(output[..], blocks, accumulatedBlock, cap)
    {
      accumulatedBlock := GatherMore(output, maps, blockStart, blockLen, i, accumulatedBlock, blocks, size, cap);
    }
    RotateRight(output, blockStart, blockLen, blocks, size, cap);
  }

  ghost predicate SendReady<T>(sends: seq<seq<T>>, receives: seq<seq<T>>, blocks: seq<seq<T>>, cap: nat)
  {
    && |sends| == |receives| == |blocks|
    && forall r: nat :: r < |blocks| ==> StartsWith(sends[r], blocks[r]) && |receives[r]| == cap
  }

  method GatherMore<T>(output: array<seq<T>>, maps: seq<BruckMap>, blockStart: seq<nat>, blockLen: seq<nat>,
                       i: nat, acc: nat, ghost blocks: seq<seq<T>>, ghost size: nat, ghost cap: nat) returns (acc': nat)
    requires AreBruckMaps(maps, |blocks|) && i < maps[0].k
    requires Layout(blockStart, blockLen, size) && HasLengths(blocks, blockLen) && size <= cap
    requires acc == Pow2(i) && Gathered(output[..], blocks, acc, cap)
    modifies output
    ensures acc' == if i + 1 < maps[0].k then Pow2(i + 1) else |blocks|
    ensures Gathered(output[..], blocks, acc', cap)
  {
    var n := output.Length;
    var curBlockSize := if Pow2(i) < n - acc then Pow2(i) else n - acc;
    NextCount(maps, n, i, acc, curBlockSize);
    acc' := acc + curBlockSize;
    BruckRound(output, maps, blockStart, blockLen, i, acc, curBlockSize, blocks, size, cap);
    ghost var rows: seq<seq<T>> := output[..];
    assert Gathered(rows, blocks, acc', cap);
  }

  lemma GatheredOne<T>(rows: seq<seq<T>>, blocks: seq<seq<T>>, cap: nat)
    requires |rows| == |blocks| > 0
    requires forall r: nat :: r < |rows| ==> |rows[r]| == cap && StartsWith(rows[r], blocks[r])
    ensures Gathered(rows, blocks, 1, cap)
  {
    forall r: nat | r < |rows|
      ensures StartsWith(rows[r], Cat(blocks, r, 1))
    {
      OwnBlock(blocks, r);
    }
  }

  lemma OwnBlockFits<T>(blocks: seq<seq<T>>, blockStart: seq<nat>, blockLen: seq<nat>, size: nat, r: nat)
    requires Layout(blockStart, blockLen, size) && HasLengths(blocks, blockLen) && r < |blocks|
    ensures blockLen[r] == |blocks[r]| <= size
  {
    OwnBlock(blocks, r);
    CatFits(blocks, blockStart, blockLen, size, r, 1);
  }

  method CopyOwnBlock<T>(input: array<seq<T>>, ghost size: nat, ghost blockStart: seq<nat>, blockLen: seq<nat>,
                         output: array<seq<T>>, ghost blocks: seq<seq<T>>, ghost cap: nat)
    requires Layout(blockStart, blockLen, size) && HasLengths(blocks, blockLen) && size <= cap
    requires SendReady(input[..], output[..], blocks, cap)
    modifies output
    ensures Gathered(output[..], blocks, 1, cap)
  {
    assert forall q: nat :: q < |blocks| ==> input[q] == input[..][q] && output[q] == output[..][q];
    for r := 0 to output.Length
      invariant forall q: nat :: r <= q < output.Length ==> StartsWith(input[q], blocks[q])
      invariant forall q: nat :: q < output.Length ==> |output[q]| == cap
      invariant forall q: nat :: q < r ==> StartsWith(output[q], blocks[q])
    {
      OwnBlockFits(blocks, blockStart, blockLen, size, r);
      output[r] := Write(output[r], 0, input[r][..blockLen[r]]);
    }
    GatheredOne(output[..], blocks, cap);
  }

  lemma OwnBlock<T>(blocks: seq<seq<T>>, r: nat)
    requires r < |blocks|
    ensures Cat(blocks, r, 1) == blocks[r]
  {
    DivUnique(r, |blocks|, 0, r);
    assert Cat(blocks, r, 0) == [];
  }
}
