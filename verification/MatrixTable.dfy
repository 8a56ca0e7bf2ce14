/** The sharded matrix table: a worker scatters a request by rows, every server works on its own range,
    and the replies are gathered back. A request for the whole table has the single key -1. Rows are the
    unit of data; servers are numbered from 0. */
module MatrixTable {
  import opened RowRanges
  import opened MatrixModel

  class MatrixServer<Row> {
    const serverId: nat
    const rowOffset: nat
    const storage: array<Row>

    constructor (numRow: nat, numServers: nat, id: nat, zero: Row)
      requires id < numServers
      ensures serverId == id && rowOffset == RowOffset(numRow, numServers, id)
      ensures storage.Length == MyNumRow(numRow, numServers, id) && fresh(storage)
      ensures numRow >= numServers && id < numServers - 1 ==>
                storage.Length == numRow / numServers && rowOffset == (numRow / numServers) * id
      ensures numRow >= numServers && id == numServers - 1 ==>
                rowOffset == (numRow / numServers) * id && rowOffset + storage.Length == numRow
      ensures numRow < numServers ==> storage.Length == (if id < numRow then 1 else 0) && rowOffset == id
      ensures forall r :: 0 <= r < storage.Length ==> storage[r] == zero
    {
      ShareOfServer(numRow, numServers, id);
      serverId, rowOffset := id, RowOffset(numRow, numServers, id);
      MyNumRowIsNatural(numRow, numServers, id);
      storage := new Row[MyNumRow(numRow, numServers, id)](_ => zero);
    }

    /** ok is false if a check fails; the server then stops. */
    method ProcessAdd(keys: seq<int>, values: seq<Row>, up: Updater<Row>) returns (ok: bool)
      requires IsWhole(keys) || Within(keys, rowOffset, rowOffset + storage.Length)
      modifies storage
      ensures IsWhole(keys) ==> ok == (|values| == storage.Length)
      ensures IsWhole(keys) && ok ==> storage[..] == AddAll(old(storage[..]), values, up)
      ensures !IsWhole(keys) ==> ok == (|values| == |keys| <= storage.Length)
      ensures !IsWhole(keys) && ok ==>
                storage[..] == AddRows(old(storage[..]), rowOffset, keys, values, up, |keys|)
      ensures !IsWhole(keys) && ok ==> RowsUpdated(old(storage[..]), storage[..], rowOffset, keys, values, up)
    {
      ghost var s: seq<Row> := storage[..];
      if IsWhole(keys) {
        if storage.Length != |values| {
          return false;
        }
        for r := 0 to storage.Length
          invariant forall q :: 0 <= q < r ==> storage[q] == up(s[q], values[q])
          invariant forall q :: r <= q < storage.Length ==> storage[q] == s[q]
        {
          storage[r] := up(storage[r], values[r]);
        }
      } else {
        if |values| != |keys| || storage.Length < |keys| {
          return false;
        }
        for i := 0 to |keys|
          invariant storage[..] == AddRows(s, rowOffset, keys, values, up, i)
        {
          var at := keys[i] - rowOffset;
          storage[at] := up(storage[at], values[i]);
        }
        AddRowsUpdates(s, rowOffset, keys, values, up);
      }
      return true;
    }

    /** The rows of the reply; keys and server number go with them. */
    method ProcessGet(keys: seq<int>) returns (rows: seq<Row>)
      requires IsWhole(keys) || Within(keys, rowOffset, rowOffset + storage.Length)
      ensures IsWhole(keys) ==> rows == storage[..]
      ensures !IsWhole(keys) ==> |rows| == |keys|
      ensures !IsWhole(keys) ==> forall j :: 0 <= j < |keys| ==> rows[j] == storage[keys[j] - rowOffset]
    {
      if IsWhole(keys) {
        return storage[..];
      }
      rows := [];
      for i := 0 to |keys|
        invariant |rows| == i && forall j :: 0 <= j < i ==> rows[j] == storage[keys[j] - rowOffset]
      {
        rows := rows + [storage[keys[i] - rowOffset]];
      }
    }
  }

  lemma MyNumRowIsNatural(numRow: nat, numServers: nat, id: nat)
    requires id < numServers
    ensures MyNumRow(numRow, numServers, id) >= 0
  {
    if numRow / numServers > 0 {
      EachFits(numRow, numServers, id);
    }
  }

  // ---- the worker ----

  /** The last place where a row is asked for; -1 if it is not. Earlier places are never filled. */
  function LastPlace(ids: seq<int>, row: int, k: nat): (p: int)
    requires k <= |ids|
    ensures -1 <= p < k && (p >= 0 ==> ids[p] == row)
    ensures forall j :: p < j < k ==> ids[j] != row
  {
    if k == 0 then -1 else if ids[k - 1] == row then k - 1 else LastPlace(ids, row, k - 1)
  }

  /** Key i of a request has been routed to its owner, and each server's part is as long as counted. */
  ghost predicate Routed(offsets: seq<nat>, keys: seq<int>, dest: seq<nat>, count: seq<nat>, k: nat)
    requires k <= |keys|
  {
    && |dest| == k && |count| == |offsets| - 1
    && (forall j :: 0 <= j < k ==> Owns(offsets, dest[j], keys[j]))
    && Counted(offsets, keys, count, k)
  }

  ghost predicate Counted(offsets: seq<nat>, keys: seq<int>, count: seq<nat>, k: nat)
    requires k <= |keys|
  {
    forall i: nat :: i < |count| ==> count[i] == |PartKeys(offsets, keys, i, k)|
  }

  /** The blobs for server i are allocated, and the first k keys have been written if they are its own.
      A get carries no rows. */
  ghost predicate PartFilled<Row>(offsets: seq<nat>, keys: seq<int>, rows: seq<Row>, isAdd: bool,
                                  partKeys: seq<int>, partRows: seq<Row>, i: nat, k: nat)
    requires k <= |keys| && (isAdd ==> |rows| == |keys|)
  {
    var cnt := |PartKeys(offsets, keys, i, k)|;
    && cnt <= |partKeys| == |PartKeys(offsets, keys, i, |keys|)|
    && partKeys[..cnt] == PartKeys(offsets, keys, i, k)
    && (isAdd ==> |partRows| == |partKeys| && partRows[..cnt] == PartRows(offsets, keys, rows, i, k))
  }

  ghost predicate AllFilled<Row>(offsets: seq<nat>, keys: seq<int>, rows: seq<Row>, isAdd: bool,
                                 partKeys: seq<seq<int>>, partRows: seq<seq<Row>>, k: nat)
    requires k <= |keys| && (isAdd ==> |rows| == |keys|)
  {
    && |partKeys| == |partRows| == |offsets| - 1
    && forall i: nat :: i < |partKeys| ==> PartFilled(offsets, keys, rows, isAdd, partKeys[i], partRows[i], i, k)
  }

  lemma {:induction false} PartGrows(offsets: seq<nat>, keys: seq<int>, i: nat, k: nat, l: nat)
    requires k <= l <= |keys|
    ensures |PartKeys(offsets, keys, i, k)| <= |PartKeys(offsets, keys, i, l)|
    decreases l
  {
    if k < l {
      PartGrows(offsets, keys, i, k, l - 1);
    }
  }

  /** Only the owner's part grows by key k. */
  lemma CountStep(offsets: seq<nat>, numRow: nat, keys: seq<int>, count: seq<nat>, dst: nat, k: nat)
    requires IsLayout(offsets, numRow) && k < |keys| && |count| == |offsets| - 1
    requires Owns(offsets, dst, keys[k]) && Counted(offsets, keys, count, k)
    ensures Counted(offsets, keys, count[dst := count[dst] + 1], k + 1)
  {
    forall i: nat | i < |count| && i != dst
      ensures !Owns(offsets, i, keys[k])
    {
      if Owns(offsets, i, keys[k]) {
        OneOwner(offsets, numRow, i, dst, keys[k]);
      }
    }
  }

  lemma FillOwn<Row>(offsets: seq<nat>, keys: seq<int>, rows: seq<Row>, isAdd: bool,
                     partKeys: seq<int>, partRows: seq<Row>, cnt: nat, i: nat, k: nat)
    requires k < |keys| && (isAdd ==> |rows| == |keys|) && Owns(offsets, i, keys[k])
    requires PartFilled(offsets, keys, rows, isAdd, partKeys, partRows, i, k)
    requires cnt == |PartKeys(offsets, keys, i, k)|
    ensures cnt < |partKeys|
    ensures PartFilled(offsets, keys, rows, isAdd, partKeys[cnt := keys[k]],
                       if isAdd then partRows[cnt := rows[k]] else partRows, i, k + 1)
  {
    PartGrows(offsets, keys, i, k + 1, |keys|);
    var partKeys' := partKeys[cnt := keys[k]];
    assert partKeys'[..cnt + 1] == partKeys[..cnt] + [keys[k]];
    if isAdd {
      var partRows' := partRows[cnt := rows[k]];
      assert partRows'[..cnt + 1] == partRows[..cnt] + [rows[k]];
    }
  }

  lemma FillStep<Row>(offsets: seq<nat>, numRow: nat, keys: seq<int>, rows: seq<Row>, isAdd: bool,
                      partKeys: seq<seq<int>>, partRows: seq<seq<Row>>, count: seq<nat>, dst: nat, k: nat)
    requires IsLayout(offsets, numRow) && k < |keys| && (isAdd ==> |rows| == |keys|) && Owns(offsets, dst, keys[k])
    requires |count| == |offsets| - 1 && Counted(offsets, keys, count, k)
    requires AllFilled(offsets, keys, rows, isAdd, partKeys, partRows, k)
    ensures count[dst] < |partKeys[dst]| && (isAdd ==> count[dst] < |partRows[dst]|)
    ensures AllFilled(offsets, keys, rows, isAdd, partKeys[dst := partKeys[dst][count[dst] := keys[k]]],
                      if isAdd then partRows[dst := partRows[dst][count[dst] := rows[k]]] else partRows, k + 1)
  {
    assert PartFilled(offsets, keys, rows, isAdd, partKeys[dst], partRows[dst], dst, k);
    FillOwn(offsets, keys, rows, isAdd, partKeys[dst], partRows[dst], count[dst], dst, k);
    forall i: nat | i < |partKeys| && i != dst
      ensures PartFilled(offsets, keys, rows, isAdd, partKeys[i], partRows[i], i, k + 1)
    {
      assert PartFilled(offsets, keys, rows, isAdd, partKeys[i], partRows[i], i, k);
      if Owns(offsets, i, keys[k]) {
        OneOwner(offsets, numRow, i, dst, keys[k]);
      }
    }
  }

  /** Servers that still have to answer. */
  ghost function Pending(partKeys: seq<seq<int>>, done: set<nat>): set<nat>
  {
    set i: nat | i < |partKeys| && partKeys[i] != [] && i !in done
  }

  class MatrixWorker<Row> {
    const numRow: nat
    const numServers: nat
    const offsets: seq<nat>
    var rowIndex: seq<int>
    var getReplyCount: nat

    /** The servers that take part. */
    function NumServer(): int
    {
      |offsets| - 1
    }

    ghost predicate Valid()
      reads this
    {
      && 0 < numServers && Agrees(offsets, numRow, numServers)
      && (numRow > 0 ==> NumServer() == if numRow < numServers then numRow else numServers)
      && |rowIndex| == numRow + 1
    }

    constructor (rows: nat, servers: nat)
      requires servers > 0
      ensures Valid() && numRow == rows && numServers == servers && getReplyCount == 0
    {
      var layout := ServerOffsets(rows, servers);
      numRow, numServers, offsets := rows, servers, layout;
      rowIndex, getReplyCount := seq(rows + 1, _ => -1), 0;
    }

    method Route(keys: seq<int>) returns (dest: seq<nat>, count: seq<nat>)
      requires Valid() && Within(keys, 0, numRow)
      ensures Routed(offsets, keys, dest, count, |keys|)
    {
      dest, count := [], seq(NumServer(), _ => 0);
      for i := 0 to |keys|
        invariant Routed(offsets, keys, dest, count, i)
      {
        RoutedToOwner(offsets, numRow, numServers, keys[i]);
        var dst: nat := Destination(keys[i], numRow, NumServer());
        CountStep(offsets, numRow, keys, count, dst, i);
        dest := dest + [dst];
        count := count[dst := count[dst] + 1];
      }
    }

    /** Scatters a row request: every server's keys and rows, in the order of the request. */
    method Partition(keys: seq<int>, rows: seq<Row>, isAdd: bool)
      returns (partKeys: seq<seq<int>>, partRows: seq<seq<Row>>)
      requires Valid() && Within(keys, 0, numRow) && (isAdd ==> |keys| == |rows|)
      requires !isAdd ==> getReplyCount == 0
      modifies this`getReplyCount
      ensures |partKeys| == |partRows| == NumServer()
      ensures forall i: nat :: i < NumServer() ==> partKeys[i] == PartKeys(offsets, keys, i, |keys|)
      ensures isAdd ==> forall i: nat :: i < NumServer() ==> partRows[i] == PartRows(offsets, keys, rows, i, |keys|)
      ensures getReplyCount == if isAdd then old(getReplyCount) else |Pending(partKeys, {})|
    {
      var dest, count := Route(keys);
      partKeys, partRows := Allocate(keys, rows, isAdd, count);
      partKeys, partRows := Fill(offsets, numRow, keys, rows, isAdd, dest, partKeys, partRows);
      AllPartsFilled(offsets, keys, rows, isAdd, partKeys, partRows);
      if !isAdd {
        getReplyCount := CountMessages(partKeys);
      }
    }

    method Allocate(keys: seq<int>, rows: seq<Row>, isAdd: bool, count: seq<nat>)
      returns (partKeys: seq<seq<int>>, partRows: seq<seq<Row>>)
      requires Valid() && (isAdd ==> |keys| == |rows|) && |count| == NumServer()
      requires Counted(offsets, keys, count, |keys|)
      ensures AllFilled(offsets, keys, rows, isAdd, partKeys, partRows, 0)
    {
      partKeys := seq(NumServer(), i requires 0 <= i < NumServer() => seq(count[i], _ => 0));
      partRows := seq(NumServer(), i requires 0 <= i < NumServer() =>
        if isAdd && |rows| > 0 then seq(count[i], _ => rows[0]) else []);
    }

    /** Where the rows of a row request are to go: the last place that asks for a row. */
    method IndexRows(ids: seq<int>)
      requires Valid() && Within(ids, 0, numRow)
      modifies this`rowIndex
      ensures Valid() && rowIndex[numRow] == -1
      ensures forall r :: 0 <= r < numRow ==> rowIndex[r] == LastPlace(ids, r, |ids|)
    {
      rowIndex := seq(numRow + 1, _ => -1);
      for i := 0 to |ids|
        invariant |rowIndex| == numRow + 1 && rowIndex[numRow] == -1
        invariant forall r :: 0 <= r < numRow ==> rowIndex[r] == LastPlace(ids, r, i)
      {
        rowIndex := rowIndex[ids[i] := i];
      }
    }

    /** A whole-table get writes to the start of the buffer. */
    method IndexAll()
      requires Valid()
      modifies this`rowIndex
      ensures Valid() && rowIndex[numRow] == 0
    {
      rowIndex := seq(numRow + 1, _ => -1)[numRow := 0];
    }

    /** Scatters a whole-table add: every server gets the rows of its range. */
    method PartitionAll(rows: seq<Row>) returns (parts: seq<seq<Row>>)
      requires Valid() && |rows| == numRow
      ensures |parts| == NumServer()
      ensures forall i: nat :: i < NumServer() ==> parts[i] == Shard(rows, offsets, i)
    {
      parts := [];
      for i := 0 to NumServer()
        invariant |parts| == i && forall j: nat :: j < i ==> parts[j] == Shard(rows, offsets, j)
      {
        parts := parts + [rows[offsets[i]..offsets[i + 1]]];
      }
    }

    /** A whole-table get goes to every server that takes part. */
    method AskAll()
      requires Valid() && getReplyCount == 0
      modifies this`getReplyCount
      ensures Valid() && getReplyCount == NumServer()
    {
      getReplyCount := NumServer();
    }

    /** Copies one server's rows to where the user wants them; ok is false if a check fails. */
    method ProcessReplyRows(data: array<Row>, keys: seq<int>, rows: seq<Row>) returns (ok: bool)
      requires Valid() && getReplyCount > 0 && Within(keys, 0, numRow)
      requires forall j :: 0 <= j < |keys| ==> -1 <= rowIndex[keys[j]] < data.Length
      modifies this`getReplyCount, data
      ensures ok == (|rows| == |keys| && forall j :: 0 <= j < |keys| ==> rowIndex[keys[j]] >= 0)
      ensures ok ==> getReplyCount == old(getReplyCount) - 1
      ensures ok ==> forall p :: 0 <= p < data.Length ==>
                data[p] == Stored(rowIndex, old(data[p]), keys, rows, p, |keys|)
    {
      ok := CopyRows(data, rowIndex, keys, rows);
      if ok {
        getReplyCount := getReplyCount - 1;
      }
    }

    /** Copies one server's whole range into the user's buffer; ok is false if a check fails. */
    method ProcessReplyAll(data: array<Row>, rows: seq<Row>, serverId: nat) returns (ok: bool)
      requires Valid() && getReplyCount > 0 && rowIndex[numRow] <= 0
      requires serverId < NumServer() ==> offsets[serverId] + |rows| <= data.Length
      modifies this`getReplyCount, data
      ensures ok == (rowIndex[numRow] == 0 && serverId < NumServer())
      ensures ok ==> getReplyCount == old(getReplyCount) - 1
      ensures ok ==> forall p :: 0 <= p < data.Length ==>
                data[p] == if offsets[serverId] <= p < offsets[serverId] + |rows| then rows[p - offsets[serverId]]
                           else old(data[p])
    {
      if rowIndex[numRow] < 0 || serverId >= NumServer() {
        return false;
      }
      for i := 0 to |rows|
        invariant getReplyCount == old(getReplyCount)
        invariant forall p :: 0 <= p < data.Length ==>
          data[p] == if offsets[serverId] <= p < offsets[serverId] + i then rows[p - offsets[serverId]]
                     else old(data[p])
      {
        data[offsets[serverId] + i] := rows[i];
      }
      getReplyCount := getReplyCount - 1;
      return true;
    }
  }

  /** Writes key i, and its row, behind those already written for the same server. */
  method FillOne<Row>(offsets: seq<nat>, ghost numRow: nat, keys: seq<int>, rows: seq<Row>, isAdd: bool,
                      dst: nat, i: nat, count: seq<nat>, partKeys: seq<seq<int>>, partRows: seq<seq<Row>>)
    returns (count': seq<nat>, partKeys': seq<seq<int>>, partRows': seq<seq<Row>>)
    requires IsLayout(offsets, numRow) && i < |keys| && (isAdd ==> |keys| == |rows|) && Owns(offsets, dst, keys[i])
    requires |count| == |offsets| - 1 && Counted(offsets, keys, count, i)
    requires AllFilled(offsets, keys, rows, isAdd, partKeys, partRows, i)
    ensures |count'| == |offsets| - 1 && Counted(offsets, keys, count', i + 1)
    ensures AllFilled(offsets, keys, rows, isAdd, partKeys', partRows', i + 1)
  {
    FillStep(offsets, numRow, keys, rows, isAdd, partKeys, partRows, count, dst, i);
    CountStep(offsets, numRow, keys, count, dst, i);
    partKeys' := partKeys[dst := partKeys[dst][count[dst] := keys[i]]];
    partRows' := partRows;
    if isAdd {
      partRows' := partRows[dst := partRows[dst][count[dst] := rows[i]]];
    }
    count' := count[dst := count[dst] + 1];
  }

  /** Writes every key and its row. */
  method Fill<Row>(offsets: seq<nat>, ghost numRow: nat, keys: seq<int>, rows: seq<Row>, isAdd: bool, dest: seq<nat>,
                   emptyKeys: seq<seq<int>>, emptyRows: seq<seq<Row>>)
    returns (partKeys: seq<seq<int>>, partRows: seq<seq<Row>>)
    requires IsLayout(offsets, numRow) && (isAdd ==> |keys| == |rows|)
    requires |dest| == |keys| && forall j :: 0 <= j < |keys| ==> Owns(offsets, dest[j], keys[j])
    requires AllFilled(offsets, keys, rows, isAdd, emptyKeys, emptyRows, 0)
    ensures AllFilled(offsets, keys, rows, isAdd, partKeys, partRows, |keys|)
  {
    partKeys, partRows := emptyKeys, emptyRows;
    var count: seq<nat> := seq(|offsets| - 1, _ => 0);
    for i := 0 to |keys|
      invariant |count| == |offsets| - 1 && Counted(offsets, keys, count, i)
      invariant AllFilled(offsets, keys, rows, isAdd, partKeys, partRows, i)
    {
      count, partKeys, partRows :=
        FillOne(offsets, numRow, keys, rows, isAdd, dest[i], i, count, partKeys, partRows);
    }
  }

  /** Copies rows to their places, unless the sizes differ or a row has no place. */
  method CopyRows<Row>(data: array<Row>, rowIndex: seq<int>, keys: seq<int>, rows: seq<Row>) returns (ok: bool)
    requires Within(keys, 0, |rowIndex|)
    requires forall j :: 0 <= j < |keys| ==> -1 <= rowIndex[keys[j]] < data.Length
    modifies data
    ensures ok == (|rows| == |keys| && forall j :: 0 <= j < |keys| ==> rowIndex[keys[j]] >= 0)
    ensures ok ==> forall p :: 0 <= p < data.Length ==> data[p] == Stored(rowIndex, old(data[p]), keys, rows, p, |keys|)
  {
    if |rows| != |keys| {
      return false;
    }
    for i := 0 to |keys|
      invariant forall j :: 0 <= j < i ==> rowIndex[keys[j]] >= 0
      invariant forall p :: 0 <= p < data.Length ==> data[p] == Stored(rowIndex, old(data[p]), keys, rows, p, i)
    {
      if rowIndex[keys[i]] < 0 {
        return false;
      }
      data[rowIndex[keys[i]]] := rows[i];
    }
    return true;
  }

  /** What place p of the user's buffer holds after the first k rows of a reply. */
  function Stored<Row>(rowIndex: seq<int>, before: Row, keys: seq<int>, rows: seq<Row>, p: int, k: nat): Row
    requires k <= |keys| == |rows| && Within(keys, 0, |rowIndex|)
  {
    if k == 0 then before
    else if rowIndex[keys[k - 1]] == p then rows[k - 1]
    else Stored(rowIndex, before, keys, rows, p, k - 1)
  }

  lemma AllPartsFilled<Row>(offsets: seq<nat>, keys: seq<int>, rows: seq<Row>, isAdd: bool,
                            partKeys: seq<seq<int>>, partRows: seq<seq<Row>>)
    requires (isAdd ==> |rows| == |keys|) && AllFilled(offsets, keys, rows, isAdd, partKeys, partRows, |keys|)
    ensures forall i: nat :: i < |partKeys| ==> partKeys[i] == PartKeys(offsets, keys, i, |keys|)
    ensures isAdd ==> forall i: nat :: i < |partKeys| ==> partRows[i] == PartRows(offsets, keys, rows, i, |keys|)
  {
    forall i: nat | i < |partKeys|
      ensures partKeys[i] == PartKeys(offsets, keys, i, |keys|)
      ensures isAdd ==> partRows[i] == PartRows(offsets, keys, rows, i, |keys|)
    {
      assert PartFilled(offsets, keys, rows, isAdd, partKeys[i], partRows[i], i, |keys|);
    }
  }

  method CountMessages(partKeys: seq<seq<int>>) returns (cnt: nat)
    ensures cnt == |Pending(partKeys, {})|
  {
    cnt := 0;
    for i := 0 to |partKeys|
      invariant cnt == |Pending(partKeys[..i], {})|
    {
      PendingGrows(partKeys, i);
      if partKeys[i] != [] {
        cnt := cnt + 1;
      }
    }
    assert partKeys[..|partKeys|] == partKeys;
  }

  lemma PendingGrows(partKeys: seq<seq<int>>, i: nat)
    requires i < |partKeys|
    ensures |Pending(partKeys[..i + 1], {})| == |Pending(partKeys[..i], {})| + if partKeys[i] != [] then 1 else 0
  {
    assert Pending(partKeys[..i + 1], {}) == Pending(partKeys[..i], {}) + if partKeys[i] != [] then {i} else {};
  }
}
