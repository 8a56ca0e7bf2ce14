/** How the rows of a matrix are split among the servers, as the servers and the workers compute it. */
module RowRanges {
  import opened DivMod

  // ---- the servers' view ----

  /** First row of server id. */
  function RowOffset(numRow: nat, numServers: nat, id: nat): nat
    requires id < numServers
  {
    var size := numRow / numServers;
    if size > 0 then size * id else id
  }

  function MyNumRow(numRow: nat, numServers: nat, id: nat): int
    requires id < numServers
  {
    var size := numRow / numServers;
    if size > 0 then (if id == numServers - 1 then numRow - size * id else size)
    else if id < numRow then 1 else 0
  }

  /** As many rows for everyone but the last, who takes the rest; one row each if there are fewer rows. */
  lemma ShareOfServer(numRow: nat, numServers: nat, id: nat)
    requires id < numServers
    ensures numRow >= numServers ==>
              && (id < numServers - 1 ==> MyNumRow(numRow, numServers, id) == numRow / numServers)
              && RowOffset(numRow, numServers, id) == (numRow / numServers) * id
              && (id == numServers - 1 ==>
                    MyNumRow(numRow, numServers, id) == numRow - RowOffset(numRow, numServers, id))
    ensures numRow < numServers ==>
              && MyNumRow(numRow, numServers, id) == (if id < numRow then 1 else 0)
              && RowOffset(numRow, numServers, id) == id
  {
    if numRow >= numServers {
      DivPositive(numRow, numServers);
    } else {
      DivUnique(numRow, numServers, 0, numRow);
    }
  }

  // ---- the workers' view ----

  /** Consecutive ranges from 0 to numRow, one for every server that takes part. */
  ghost predicate IsLayout(offsets: seq<nat>, numRow: nat)
  {
    && |offsets| >= 2 && offsets[0] == 0 && offsets[|offsets| - 1] == numRow
    && forall i, j :: 0 <= i <= j < |offsets| ==> offsets[i] <= offsets[j]
  }

  predicate Owns(offsets: seq<nat>, i: nat, key: int)
  {
    i + 1 < |offsets| && offsets[i] <= key < offsets[i + 1]
  }

  /** The range of server i, as the worker has it, is the server's own. */
  ghost predicate RangeAgrees(offsets: seq<nat>, numRow: nat, numServers: nat, i: nat)
    requires i + 1 < |offsets| && i < numServers
  {
    && offsets[i] == RowOffset(numRow, numServers, i)
    && offsets[i + 1] == offsets[i] + MyNumRow(numRow, numServers, i)
    && MyNumRow(numRow, numServers, i) >= 0
  }

  lemma {:induction false} OffsetsGrow(offsets: seq<nat>, numRow: nat, numServers: nat, i: nat, j: nat)
    requires i <= j < |offsets| <= numServers + 1
    requires forall k: nat :: k < |offsets| - 1 ==> RangeAgrees(offsets, numRow, numServers, k)
    ensures offsets[i] <= offsets[j]
    decreases j
  {
    if i < j {
      OffsetsGrow(offsets, numRow, numServers, i, j - 1);
      assert RangeAgrees(offsets, numRow, numServers, j - 1);
    }
  }

  /** At most one server owns a row. */
  lemma OneOwner(offsets: seq<nat>, numRow: nat, i: nat, j: nat, key: int)
    requires IsLayout(offsets, numRow) && Owns(offsets, i, key) && Owns(offsets, j, key)
    ensures i == j
  {
  }

  /** The worker's offsets agree with the servers' own ranges; a server left out has no rows. */
  ghost predicate Agrees(offsets: seq<nat>, numRow: nat, numServers: nat)
  {
    && IsLayout(offsets, numRow) && |offsets| - 1 <= numServers
    && (forall i: nat :: i < |offsets| - 1 ==> RangeAgrees(offsets, numRow, numServers, i))
    && forall i: nat :: |offsets| - 1 <= i < numServers ==> MyNumRow(numRow, numServers, i) == 0
  }

  lemma RangesMakeLayout(offsets: seq<nat>, numRow: nat, numServers: nat)
    requires 2 <= |offsets| <= numServers + 1 && offsets[0] == 0 && offsets[|offsets| - 1] == numRow
    requires forall k: nat :: k < |offsets| - 1 ==> RangeAgrees(offsets, numRow, numServers, k)
    ensures IsLayout(offsets, numRow)
  {
    forall i: nat, j: nat | i <= j < |offsets|
      ensures offsets[i] <= offsets[j]
    {
      OffsetsGrow(offsets, numRow, numServers, i, j);
    }
  }

  method ServerOffsets(numRow: nat, numServers: nat) returns (offsets: seq<nat>)
    requires numServers > 0
    ensures Agrees(offsets, numRow, numServers)
    ensures numRow > 0 ==> |offsets| - 1 == if numRow < numServers then numRow else numServers
    ensures numRow >= numServers ==>
              forall i :: 0 <= i < numServers - 1 ==> offsets[i + 1] - offsets[i] == numRow / numServers
    ensures numRow < numServers ==> forall i :: 0 <= i < numRow ==> offsets[i + 1] - offsets[i] == 1
  {
    var length := numRow / numServers;
    if length > 0 {
      offsets := FullOffsets(numRow, numServers, length);
    } else {
      offsets := SingleOffsets(numRow, numServers);
    }
    RangesAreEven(offsets, numRow, numServers);
  }

  lemma RangesAreEven(offsets: seq<nat>, numRow: nat, numServers: nat)
    requires numServers > 0 && Agrees(offsets, numRow, numServers)
    requires numRow > 0 ==> |offsets| - 1 == if numRow < numServers then numRow else numServers
    ensures numRow >= numServers ==>
              forall i :: 0 <= i < numServers - 1 ==> offsets[i + 1] - offsets[i] == numRow / numServers
    ensures numRow < numServers ==> forall i :: 0 <= i < numRow ==> offsets[i + 1] - offsets[i] == 1
  {
    forall i: nat | numRow > 0 && i < |offsets| - 1
      ensures numRow >= numServers && i < numServers - 1 ==> offsets[i + 1] - offsets[i] == numRow / numServers
      ensures numRow < numServers ==> offsets[i + 1] - offsets[i] == 1
    {
      assert RangeAgrees(offsets, numRow, numServers, i);
      ShareOfServer(numRow, numServers, i);
    }
  }

  method FullOffsets(numRow: nat, numServers: nat, length: nat) returns (offsets: seq<nat>)
    requires numServers > 0 && length == numRow / numServers > 0
    ensures Agrees(offsets, numRow, numServers) && |offsets| == numServers + 1 && numServers <= numRow
  {
    offsets := [0];
    var offset := length;
    var i := 1;
    while offset < numRow && i < numServers
      invariant 1 <= i <= numServers && |offsets| == i && IsMultiple(offset, length, i)
      invariant forall j: nat :: j < i ==> IsMultiple(offsets[j], length, j)
      decreases numServers - i
    {
      offsets := offsets + [offset];
      NextMultiple(length, i);
      offset := offset + length;
      i := i + 1;
    }
    AllServersTakePart(numRow, numServers, i);
    offsets := offsets + [numRow];
    FullLayout(offsets, numRow, numServers);
  }

  /** Fewer rows than servers: one row each. */
  method SingleOffsets(numRow: nat, numServers: nat) returns (offsets: seq<nat>)
    requires numServers > 0 && numRow / numServers == 0
    ensures Agrees(offsets, numRow, numServers) && numRow < numServers
    ensures numRow > 0 ==> |offsets| == numRow + 1
  {
    FewRows(numRow, numServers);
    offsets := [0];
    var offset := 1;
    var i := 1;
    while offset < numRow && i < numServers
      invariant 1 <= i <= numServers && offset == i && |offsets| == i && (numRow > 0 ==> i <= numRow)
      invariant numRow == 0 ==> i == 1
      invariant forall j: nat :: j < i ==> offsets[j] == j
      decreases numServers - i
    {
      offsets := offsets + [offset];
      offset := offset + 1;
      i := i + 1;
    }
    offsets := offsets + [numRow];
    SingleLayout(offsets, numRow, numServers);
  }

  lemma SingleLayout(offsets: seq<nat>, numRow: nat, numServers: nat)
    requires numServers > 0 && numRow / numServers == 0 && numRow < numServers
    requires |offsets| == (if numRow == 0 then 1 else numRow) + 1 && offsets[|offsets| - 1] == numRow
    requires forall j: nat :: j < |offsets| - 1 ==> offsets[j] == j
    ensures Agrees(offsets, numRow, numServers)
  {
    forall i: nat | i < |offsets| - 1
      ensures RangeAgrees(offsets, numRow, numServers, i)
    {
      assert i + 1 < |offsets| - 1 ==> offsets[i + 1] == i + 1;
    }
    RangesMakeLayout(offsets, numRow, numServers);
  }

  ghost predicate IsMultiple(x: int, length: nat, i: nat)
  {
    x == length * i
  }

  lemma FewRows(numRow: nat, numServers: nat)
    requires numServers > 0 && numRow / numServers == 0
    ensures numRow < numServers
  {
    DivUnique(numRow, numServers, numRow / numServers, numRow % numServers);
    assert numRow == (numRow / numServers) * numServers + numRow % numServers;
  }

  lemma NextMultiple(length: nat, i: nat)
    ensures length * i + length == length * (i + 1)
  {
  }

  /** The ranges of the first i servers, i < numServers, end before the last row. */
  lemma EachFits(numRow: nat, numServers: nat, i: nat)
    requires numServers > 0 && numRow / numServers > 0 && i < numServers
    ensures (numRow / numServers) * i < numRow
    ensures (numRow / numServers) * i + numRow / numServers <= numRow
  {
    var length := numRow / numServers;
    MulMonotone(i + 1, numServers, length);
    NextMultiple(length, i);
    assert numRow == length * numServers + numRow % numServers;
  }

  lemma AllServersTakePart(numRow: nat, numServers: nat, i: nat)
    requires numServers > 0 && numRow / numServers > 0 && 1 <= i <= numServers
    requires (numRow / numServers) * i >= numRow || i == numServers
    ensures i == numServers
  {
    if i < numServers {
      EachFits(numRow, numServers, i);
    }
  }

  lemma FullLayout(offsets: seq<nat>, numRow: nat, numServers: nat)
    requires numServers > 0 && numRow / numServers > 0
    requires |offsets| == numServers + 1 && offsets[numServers] == numRow
    requires forall j: nat :: j < numServers ==> IsMultiple(offsets[j], numRow / numServers, j)
    ensures Agrees(offsets, numRow, numServers)
  {
    var length := numRow / numServers;
    forall i: nat | i < numServers
      ensures RangeAgrees(offsets, numRow, numServers, i)
    {
      EachFits(numRow, numServers, i);
      NextMultiple(length, i);
      assert IsMultiple(offsets[i], length, i);
      assert i + 1 < numServers ==> IsMultiple(offsets[i + 1], length, i + 1);
    }
    RangesMakeLayout(offsets, numRow, numServers);
  }

  // ---- routing ----

  /** The server a row request goes to. n is the number of servers that take part. */
  function Destination(key: nat, numRow: nat, n: nat): (dst: int)
    requires n > 0 && numRow / n > 0
  {
    var dst := key / (numRow / n);
    if dst >= n then n - 1 else dst
  }

  /** Routing always agrees with the servers' own ranges, also with fewer rows than servers. */
  lemma RoutedToOwner(offsets: seq<nat>, numRow: nat, numServers: nat, key: nat)
    requires numServers > 0 && Agrees(offsets, numRow, numServers) && key < numRow
    requires |offsets| - 1 == if numRow < numServers then numRow else numServers
    ensures numRow / (|offsets| - 1) > 0
    ensures 0 <= Destination(key, numRow, |offsets| - 1) < |offsets| - 1
    ensures Owns(offsets, Destination(key, numRow, |offsets| - 1), key)
  {
    var n := |offsets| - 1;
    if numRow < numServers {
      DivUnique(numRow, numServers, 0, numRow);
      DivUnique(numRow, numRow, 1, 0);
      DivUnique(key, 1, key, 0);
      assert RangeAgrees(offsets, numRow, numServers, key);
    } else {
      DivPositive(numRow, numServers);
      RoutedFull(offsets, numRow, numServers, key);
    }
  }

  lemma DivPositive(a: nat, b: nat)
    requires 0 < b <= a
    ensures a / b > 0
  {
    assert a == (a / b) * b + a % b;
  }

  lemma RoutedFull(offsets: seq<nat>, numRow: nat, numServers: nat, key: nat)
    requires numServers > 0 && Agrees(offsets, numRow, numServers) && key < numRow
    requires |offsets| - 1 == numServers && numRow / numServers > 0
    ensures 0 <= Destination(key, numRow, numServers) < numServers
    ensures Owns(offsets, Destination(key, numRow, numServers), key)
  {
    var length := numRow / numServers;
    var q := key / length;
    assert key == q * length + key % length;
    var dst := Destination(key, numRow, numServers);
    assert RangeAgrees(offsets, numRow, numServers, dst);
    assert offsets[dst] == length * dst;
    if q >= numServers {
      MulMonotone(numServers - 1, q, length);
    } else {
      NextMultiple(length, q);
    }
  }
}
