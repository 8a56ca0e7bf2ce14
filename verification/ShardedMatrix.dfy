/** Workers and servers together behave as one flat matrix. In whatever order the servers are reached. */
module ShardedMatrix {
  import opened Sums
  import opened RowRanges
  import opened MatrixModel
  import opened MatrixTable

  /** One server object per server, each with its own range. */
  ghost predicate AreServers<Row>(servers: seq<MatrixServer<Row>>, numRow: nat)
  {
    && (forall i: nat :: i < |servers| ==> IsServer(servers[i], numRow, |servers|, i))
    && forall i: nat, j: nat :: i < j < |servers| ==> servers[i].storage != servers[j].storage
  }

  ghost predicate IsServer<Row>(s: MatrixServer<Row>, numRow: nat, numServers: nat, i: nat)
    requires i < numServers
  {
    && s.serverId == i && s.rowOffset == RowOffset(numRow, numServers, i)
    && s.storage.Length == MyNumRow(numRow, numServers, i)
  }

  ghost function Storages<Row>(servers: seq<MatrixServer<Row>>): set<object>
  {
    set i: nat | i < |servers| :: servers[i].storage
  }

  /** Worker and servers belong to the same table. */
  ghost predicate SameTable<Row>(worker: MatrixWorker<Row>, servers: seq<MatrixServer<Row>>)
    reads worker
  {
    worker.Valid() && |servers| == worker.numServers && AreServers(servers, worker.numRow)
  }

  /** Server i stores its shard: of m', if it is among those done, of m otherwise. */
  ghost predicate ShardsOf<Row>(servers: seq<MatrixServer<Row>>, offsets: seq<nat>, m: seq<Row>, m': seq<Row>,
                                done: set<nat>)
    reads Storages(servers)
  {
    && IsLayout(offsets, |m|) && |m'| == |m| && |offsets| - 1 <= |servers|
    && forall i: nat :: i < |offsets| - 1 ==>
         HoldsShard(servers[i].storage[..], offsets, if i in done then m' else m, i)
  }

  ghost predicate HoldsShard<Row>(storage: seq<Row>, offsets: seq<nat>, m: seq<Row>, i: nat)
  {
    i + 1 < |offsets| && offsets[i] <= offsets[i + 1] <= |m| && storage == Shard(m, offsets, i)
  }

  /** The servers together store the flat matrix m. */
  ghost predicate Stores<Row>(worker: MatrixWorker<Row>, servers: seq<MatrixServer<Row>>, m: seq<Row>)
    reads worker, Storages(servers)
  {
    |m| == worker.numRow && ShardsOf(servers, worker.offsets, m, m, {})
  }

  /** Every server that takes part, once, in any order. */
  ghost predicate IsOrder(order: seq<nat>, n: int)
  {
    && |order| == n
    && (forall i :: 0 <= i < n ==> order[i] < n)
    && (forall i, j :: 0 <= i < j < n ==> order[i] != order[j])
  }

  ghost function Done(order: seq<nat>, k: nat): (s: set<nat>)
    requires k <= |order|
  {
    if k == 0 then {} else Done(order, k - 1) + {order[k - 1]}
  }

  lemma {:induction false} InDone(order: seq<nat>, k: nat, x: nat)
    requires k <= |order|
    ensures x in Done(order, k) <==> exists j :: 0 <= j < k && order[j] == x
  {
    if k > 0 {
      InDone(order, k - 1, x);
    }
  }

  lemma NotDoneYet(order: seq<nat>, n: nat, k: nat)
    requires IsOrder(order, n) && k < n
    ensures order[k] < n && order[k] !in Done(order, k)
    ensures Done(order, k + 1) == Done(order, k) + {order[k]}
  {
    InDone(order, k, order[k]);
  }

  lemma {:induction false} DoneCount(order: seq<nat>, n: nat, k: nat)
    requires IsOrder(order, n) && k <= n
    ensures |Done(order, k)| == k && Done(order, k) <= Below(n)
  {
    if k > 0 {
      DoneCount(order, n, k - 1);
      InDone(order, k - 1, order[k - 1]);
    }
  }

  lemma AllDone(order: seq<nat>, n: nat, i: nat)
    requires IsOrder(order, n) && i < n
    ensures i in Done(order, n)
  {
    DoneCount(order, n, n);
    if i !in Done(order, n) {
      SubsetCount(Done(order, n), Below(n) - {i});
    }
  }

  // ---- adding ----

  /** Every server has room for its part, as its check demands. */
  ghost predicate PartsFit(offsets: seq<nat>, keys: seq<int>)
  {
    forall i: nat :: i < |offsets| - 1 ==> PartFits(offsets, keys, i)
  }

  ghost predicate PartFits(offsets: seq<nat>, keys: seq<int>, i: nat)
    requires i + 1 < |offsets|
  {
    offsets[i] + |PartKeys(offsets, keys, i, |keys|)| <= offsets[i + 1]
  }

  lemma DistinctRowsFit(offsets: seq<nat>, numRow: nat, keys: seq<int>)
    requires IsLayout(offsets, numRow) && DistinctKeys(keys)
    ensures PartsFit(offsets, keys)
  {
    forall i: nat | i < |offsets| - 1
      ensures PartFits(offsets, keys, i)
    {
      DistinctPartsFit(offsets, numRow, keys, i);
    }
  }

  lemma NotWhole(keys: seq<int>, lo: nat, hi: int)
    requires Within(keys, lo, hi)
    ensures !IsWhole(keys)
  {
  }

  /** The servers that take part have the ranges that the worker's offsets say. */
  ghost predicate FollowLayout<Row>(servers: seq<MatrixServer<Row>>, offsets: seq<nat>)
  {
    && 0 < |offsets| <= |servers| + 1
    && (forall i: nat :: i < |offsets| - 1 ==> Follows(servers[i], offsets, i))
    && forall i: nat, j: nat :: i < j < |servers| ==> servers[i].storage != servers[j].storage
  }

  ghost predicate Follows<Row>(s: MatrixServer<Row>, offsets: seq<nat>, i: nat)
    requires i + 1 < |offsets|
  {
    && s.serverId == i && s.rowOffset == offsets[i]
    && offsets[i] + s.storage.Length == offsets[i + 1]
  }

  lemma RangesAgree<Row>(worker: MatrixWorker<Row>, servers: seq<MatrixServer<Row>>)
    requires SameTable(worker, servers)
    ensures FollowLayout(servers, worker.offsets)
  {
    forall i: nat | i < |worker.offsets| - 1
      ensures Follows(servers[i], worker.offsets, i)
    {
      assert IsServer(servers[i], worker.numRow, |servers|, i);
      assert RangeAgrees(worker.offsets, worker.numRow, |servers|, i);
    }
  }

  /** What a scattered row request looks like to the servers. */
  ghost predicate Scattered<Row>(servers: seq<MatrixServer<Row>>, offsets: seq<nat>, numRow: nat, keys: seq<int>,
                                 partKeys: seq<seq<int>>)
  {
    && IsLayout(offsets, numRow) && FollowLayout(servers, offsets)
    && Within(keys, 0, numRow) && |partKeys| == |offsets| - 1
    && forall i: nat :: i < |partKeys| ==> partKeys[i] == PartKeys(offsets, keys, i, |keys|)
  }

  /** One server takes its part; none of it, if the part is empty and no message is sent. */
  method AddPart<Row>(servers: seq<MatrixServer<Row>>, i: nat, keys: seq<int>, rows: seq<Row>, up: Updater<Row>,
                      partKeys: seq<seq<int>>, partRows: seq<Row>, ghost offsets: seq<nat>,
                      ghost m: seq<Row>, ghost m': seq<Row>, ghost done: set<nat>)
    returns (ok: bool)
    requires Scattered(servers, offsets, |m|, keys, partKeys)
    requires |rows| == |keys| && i < |partKeys| && i !in done
    requires partRows == PartRows(offsets, keys, rows, i, |keys|)
    requires m' == AddRows(m, 0, keys, rows, up, |keys|) && ShardsOf(servers, offsets, m, m', done)
    modifies servers[i].storage
    ensures ok == PartFits(offsets, keys, i)
    ensures ok ==> ShardsOf(servers, offsets, m, m', done + {i})
  {
    assert Follows(servers[i], offsets, i);
    PartWithin(offsets, keys, i, |keys|);
    NotWhole(partKeys[i], offsets[i], offsets[i + 1]);
    assert HoldsShard(servers[i].storage[..], offsets, m, i);
    PartsAreShards(m, offsets, keys, rows, up, i, |keys|);
    ok := true;
    if partKeys[i] != [] {
      ok := servers[i].ProcessAdd(partKeys[i], partRows, up);
    }
  }

  /** The first k servers of an order have room for their parts. */
  ghost predicate FirstFit(offsets: seq<nat>, keys: seq<int>, order: seq<nat>, k: nat)
    requires IsOrder(order, |offsets| - 1) && k <= |order|
  {
    forall j :: 0 <= j < k ==> PartFits(offsets, keys, order[j])
  }

  /** What is to be added, and how the servers have been told. */
  ghost predicate Adding<Row>(servers: seq<MatrixServer<Row>>, offsets: seq<nat>, keys: seq<int>, rows: seq<Row>,
                              up: Updater<Row>, partKeys: seq<seq<int>>, partRows: seq<seq<Row>>,
                              order: seq<nat>, m: seq<Row>, m': seq<Row>)
  {
    && Scattered(servers, offsets, |m|, keys, partKeys)
    && |rows| == |keys| && |partRows| == |partKeys| && IsOrder(order, |partKeys|)
    && (forall i: nat :: i < |partRows| ==> partRows[i] == PartRows(offsets, keys, rows, i, |keys|))
    && m' == AddRows(m, 0, keys, rows, up, |keys|)
  }

  method AddNext<Row>(servers: seq<MatrixServer<Row>>, keys: seq<int>, rows: seq<Row>, up: Updater<Row>,
                      partKeys: seq<seq<int>>, partRows: seq<seq<Row>>, order: seq<nat>, k: nat,
                      ghost offsets: seq<nat>, ghost m: seq<Row>, ghost m': seq<Row>)
    returns (ok: bool)
    requires Adding(servers, offsets, keys, rows, up, partKeys, partRows, order, m, m') && k < |order|
    requires ShardsOf(servers, offsets, m, m', Done(order, k)) && FirstFit(offsets, keys, order, k)
    modifies Storages(servers)
    ensures ok == FirstFit(offsets, keys, order, k + 1)
    ensures ok ==> ShardsOf(servers, offsets, m, m', Done(order, k + 1))
  {
    NotDoneYet(order, |partKeys|, k);
    NextFits(offsets, keys, order, k);
    assert servers[order[k]].storage in Storages(servers);
    ok := AddPart(servers, order[k], keys, rows, up, partKeys, partRows[order[k]], offsets, m, m', Done(order, k));
  }

  method AddParts<Row>(servers: seq<MatrixServer<Row>>, keys: seq<int>, rows: seq<Row>, up: Updater<Row>,
                       partKeys: seq<seq<int>>, partRows: seq<seq<Row>>, order: seq<nat>,
                       ghost offsets: seq<nat>, ghost m: seq<Row>, ghost m': seq<Row>)
    returns (ok: bool)
    requires Adding(servers, offsets, keys, rows, up, partKeys, partRows, order, m, m')
    requires ShardsOf(servers, offsets, m, m', {})
    modifies Storages(servers)
    ensures ok ==> ShardsOf(servers, offsets, m, m', Done(order, |order|))
    ensures ok == FirstFit(offsets, keys, order, |order|)
  {
    for k := 0 to |order|
      invariant ShardsOf(servers, offsets, m, m', Done(order, k)) && FirstFit(offsets, keys, order, k)
    {
      NextFits(offsets, keys, order, k);
      ok := AddNext(servers, keys, rows, up, partKeys, partRows, order, k, offsets, m, m');
      if !ok {
        return false;
      }
    }
    ok := true;
  }

  lemma NextFits(offsets: seq<nat>, keys: seq<int>, order: seq<nat>, k: nat)
    requires IsOrder(order, |offsets| - 1) && k < |order|
    ensures FirstFit(offsets, keys, order, k + 1) <==>
            FirstFit(offsets, keys, order, k) && PartFits(offsets, keys, order[k])
    ensures FirstFit(offsets, keys, order, |order|) ==> FirstFit(offsets, keys, order, k + 1)
  {
  }

  /** A row-list add: every server takes its part, in any order. It fails if a row list asks a server
      for more rows than it has, and otherwise updates the flat matrix row after row. */
  method AddRowList<Row>(worker: MatrixWorker<Row>, servers: seq<MatrixServer<Row>>, keys: seq<int>, rows: seq<Row>,
                         up: Updater<Row>, order: seq<nat>, ghost m: seq<Row>) returns (ok: bool)
    requires SameTable(worker, servers) && Stores(worker, servers, m)
    requires Within(keys, 0, worker.numRow) && |rows| == |keys| && IsOrder(order, worker.NumServer())
    modifies worker`getReplyCount, Storages(servers)
    ensures SameTable(worker, servers) && worker.getReplyCount == old(worker.getReplyCount)
    ensures ok == PartsFit(worker.offsets, keys)
    ensures ok ==> Stores(worker, servers, AddRows(m, 0, keys, rows, up, |keys|))
  {
    ghost var m' := AddRows(m, 0, keys, rows, up, |keys|);
    RangesAgree(worker, servers);
    var partKeys, partRows := worker.Partition(keys, rows, true);
    ok := AddParts(servers, keys, rows, up, partKeys, partRows, order, worker.offsets, m, m');
    AllPartsFit(worker.offsets, keys, order);
    if ok {
      AllServersDone(servers, worker.offsets, m, m', order);
    }
  }

  lemma AllPartsFit(offsets: seq<nat>, keys: seq<int>, order: seq<nat>)
    requires IsOrder(order, |offsets| - 1)
    ensures PartsFit(offsets, keys) <==> FirstFit(offsets, keys, order, |order|)
  {
    if FirstFit(offsets, keys, order, |order|) {
      forall i: nat | i < |offsets| - 1
        ensures PartFits(offsets, keys, i)
      {
        AllDone(order, |order|, i);
        InDone(order, |order|, i);
      }
    }
  }

  lemma AllServersDone<Row>(servers: seq<MatrixServer<Row>>, offsets: seq<nat>, m: seq<Row>, m': seq<Row>,
                            order: seq<nat>)
    requires ShardsOf(servers, offsets, m, m', Done(order, |order|)) && IsOrder(order, |offsets| - 1)
    ensures ShardsOf(servers, offsets, m', m', {})
  {
    forall i: nat | i < |offsets| - 1
      ensures HoldsShard(servers[i].storage[..], offsets, m', i)
    {
      AllDone(order, |order|, i);
      assert HoldsShard(servers[i].storage[..], offsets, if i in Done(order, |order|) then m' else m, i);
    }
  }

  // ---- adding to the whole table ----

  lemma ShardOfSum<Row>(m: seq<Row>, rows: seq<Row>, up: Updater<Row>, offsets: seq<nat>, i: nat)
    requires |rows| == |m| && IsLayout(offsets, |m|) && i + 1 < |offsets|
    ensures AddAll(Shard(m, offsets, i), Shard(rows, offsets, i), up) == Shard(AddAll(m, rows, up), offsets, i)
  {
  }

  method AddWholePart<Row>(servers: seq<MatrixServer<Row>>, i: nat, part: seq<Row>, up: Updater<Row>,
                           ghost offsets: seq<nat>, ghost m: seq<Row>, ghost m': seq<Row>, ghost done: set<nat>)
    returns (ok: bool)
    requires FollowLayout(servers, offsets) && ShardsOf(servers, offsets, m, m', done)
    requires i < |offsets| - 1 && i !in done && |part| == |Shard(m, offsets, i)|
    requires Shard(m', offsets, i) == AddAll(Shard(m, offsets, i), part, up)
    modifies servers[i].storage
    ensures ok && ShardsOf(servers, offsets, m, m', done + {i})
  {
    assert Follows(servers[i], offsets, i);
    assert HoldsShard(servers[i].storage[..], offsets, m, i);
    ok := servers[i].ProcessAdd([WHOLE_TABLE], part, up);
  }

  method AddWholeNext<Row>(servers: seq<MatrixServer<Row>>, rows: seq<Row>, up: Updater<Row>, parts: seq<seq<Row>>,
                           order: seq<nat>, k: nat, ghost offsets: seq<nat>, ghost m: seq<Row>, ghost m': seq<Row>)
    returns (ok: bool)
    requires WholeAdding(servers, offsets, rows, parts, order, m) && k < |order| && m' == AddAll(m, rows, up)
    requires ShardsOf(servers, offsets, m, m', Done(order, k))
    modifies Storages(servers)
    ensures ok && ShardsOf(servers, offsets, m, m', Done(order, k + 1))
  {
    NotDoneYet(order, |parts|, k);
    assert servers[order[k]].storage in Storages(servers);
    ShardOfSum(m, rows, up, offsets, order[k]);
    ok := AddWholePart(servers, order[k], parts[order[k]], up, offsets, m, m', Done(order, k));
  }

  ghost predicate WholeAdding<Row>(servers: seq<MatrixServer<Row>>, offsets: seq<nat>, rows: seq<Row>,
                                   parts: seq<seq<Row>>, order: seq<nat>, m: seq<Row>)
  {
    && IsLayout(offsets, |m|) && FollowLayout(servers, offsets) && |rows| == |m|
    && |parts| == |offsets| - 1 && IsOrder(order, |parts|)
    && forall i: nat :: i < |parts| ==> parts[i] == Shard(rows, offsets, i)
  }

  method AddWholeParts<Row>(servers: seq<MatrixServer<Row>>, rows: seq<Row>, up: Updater<Row>, parts: seq<seq<Row>>,
                            order: seq<nat>, ghost offsets: seq<nat>, ghost m: seq<Row>, ghost m': seq<Row>)
    returns (ok: bool)
    requires WholeAdding(servers, offsets, rows, parts, order, m) && m' == AddAll(m, rows, up)
    requires ShardsOf(servers, offsets, m, m', {})
    modifies Storages(servers)
    ensures ok && ShardsOf(servers, offsets, m, m', Done(order, |order|))
  {
    ok := true;
    for k := 0 to |order|
      invariant ok && ShardsOf(servers, offsets, m, m', Done(order, k))
    {
      ok := AddWholeNext(servers, rows, up, parts, order, k, offsets, m, m');
    }
  }

  /** A whole-table add updates every row of the flat matrix. */
  method AddWhole<Row>(worker: MatrixWorker<Row>, servers: seq<MatrixServer<Row>>, rows: seq<Row>, up: Updater<Row>,
                       order: seq<nat>, ghost m: seq<Row>) returns (ok: bool)
    requires SameTable(worker, servers) && Stores(worker, servers, m)
    requires |rows| == worker.numRow && IsOrder(order, worker.NumServer())
    modifies Storages(servers)
    ensures ok && Stores(worker, servers, AddAll(m, rows, up))
  {
    RangesAgree(worker, servers);
    var parts := worker.PartitionAll(rows);
    ok := AddWholeParts(servers, rows, up, parts, order, worker.offsets, m, AddAll(m, rows, up));
    AllServersDone(servers, worker.offsets, m, AddAll(m, rows, up), order);
  }

  // ---- getting rows ----

  lemma {:induction false} PartKeySet(offsets: seq<nat>, keys: seq<int>, i: nat, k: nat, x: int)
    requires k <= |keys|
    ensures var part := PartKeys(offsets, keys, i, k);
            x in KeySet(part, |part|) <==> x in KeySet(keys, k) && Owns(offsets, i, x)
  {
    if k > 0 {
      PartKeySet(offsets, keys, i, k - 1, x);
      if Owns(offsets, i, keys[k - 1]) {
        KeySetSnoc(PartKeys(offsets, keys, i, k - 1), keys[k - 1]);
      }
    }
  }

  /** Place p of a row request is filled at all: no later place asks for the same row. */
  predicate IsLast(ids: seq<int>, p: nat)
    requires p < |ids|
  {
    LastPlace(ids, ids[p], |ids|) == p
  }

  ghost predicate Indexed(rowIndex: seq<int>, ids: seq<int>, numRow: nat)
  {
    && |rowIndex| == numRow + 1 && Within(ids, 0, numRow)
    && forall r :: 0 <= r < numRow ==> rowIndex[r] == LastPlace(ids, r, |ids|)
  }

  lemma {:induction false} StoredIs<Row>(rowIndex: seq<int>, ids: seq<int>, m: seq<Row>, before: Row,
                                         keys: seq<int>, rows: seq<Row>, p: nat, k: nat)
    requires Indexed(rowIndex, ids, |m|) && Within(keys, 0, |m|) && k <= |keys| == |rows| && p < |ids|
    requires forall j :: 0 <= j < |keys| ==> rows[j] == m[keys[j]]
    ensures Stored(rowIndex, before, keys, rows, p, k)
         == if IsLast(ids, p) && ids[p] in KeySet(keys, k) then m[ids[p]] else before
  {
    if k > 0 {
      StoredIs(rowIndex, ids, m, before, keys, rows, p, k - 1);
    }
  }

  ghost predicate OwnerIn(offsets: seq<nat>, key: int, done: set<nat>)
  {
    exists i :: i in done && Owns(offsets, i, key)
  }

  /** The places of the buffer that have been filled: those of rows whose owner has replied. */
  ghost predicate Gathered<Row>(data: seq<Row>, before: seq<Row>, ids: seq<int>, m: seq<Row>, offsets: seq<nat>,
                                done: set<nat>)
    requires Within(ids, 0, |m|)
  {
    && |data| == |before| == |ids|
    && forall p: nat :: p < |ids| ==> GatheredAt(data, before, ids, m, offsets, done, p)
  }

  ghost predicate GatheredAt<Row>(data: seq<Row>, before: seq<Row>, ids: seq<int>, m: seq<Row>, offsets: seq<nat>,
                                  done: set<nat>, p: nat)
    requires p < |ids| == |data| == |before| && Within(ids, 0, |m|)
  {
    data[p] == if IsLast(ids, p) && OwnerIn(offsets, ids[p], done) then m[ids[p]] else before[p]
  }

  lemma GatherStep<Row>(data: seq<Row>, data': seq<Row>, before: seq<Row>, ids: seq<int>, m: seq<Row>,
                        offsets: seq<nat>, done: set<nat>, i: nat, rowIndex: seq<int>, rows: seq<Row>)
    requires Indexed(rowIndex, ids, |m|) && IsLayout(offsets, |m|) && i < |offsets| - 1 && i !in done
    requires Gathered(data, before, ids, m, offsets, done) && |data'| == |data|
    requires var keys := PartKeys(offsets, ids, i, |ids|);
             && |rows| == |keys| && Within(keys, 0, |m|)
             && (forall j :: 0 <= j < |keys| ==> rows[j] == m[keys[j]])
             && forall p: nat :: p < |data| ==> data'[p] == Stored(rowIndex, data[p], keys, rows, p, |keys|)
    ensures Gathered(data', before, ids, m, offsets, done + {i})
  {
    var keys := PartKeys(offsets, ids, i, |ids|);
    forall p: nat | p < |ids|
      ensures GatheredAt(data', before, ids, m, offsets, done + {i}, p)
    {
      assert GatheredAt(data, before, ids, m, offsets, done, p);
      StoredIs(rowIndex, ids, m, data[p], keys, rows, p, |keys|);
      PartKeySet(offsets, ids, i, |ids|, ids[p]);
      InKeySet(ids, |ids|, ids[p]);
      OwnerStep(offsets, ids[p], done, i);
      if OwnerIn(offsets, ids[p], done) && Owns(offsets, i, ids[p]) {
        var j :| j in done && Owns(offsets, j, ids[p]);
        OneOwner(offsets, |m|, i, j, ids[p]);
      }
    }
  }

  lemma OwnerStep(offsets: seq<nat>, key: int, done: set<nat>, i: nat)
    ensures OwnerIn(offsets, key, done + {i}) <==> OwnerIn(offsets, key, done) || Owns(offsets, i, key)
  {
    if Owns(offsets, i, key) {
      assert i in done + {i};
    }
    if OwnerIn(offsets, key, done) {
      var j :| j in done && Owns(offsets, j, key);
      assert j in done + {i};
    }
  }

  lemma PendingStep(partKeys: seq<seq<int>>, done: set<nat>, i: nat)
    requires i < |partKeys| && i !in done
    ensures |Pending(partKeys, done + {i})| == |Pending(partKeys, done)| - if partKeys[i] != [] then 1 else 0
  {
    assert Pending(partKeys, done + {i}) == Pending(partKeys, done) - {i};
  }

  /** A row request under way. */
  ghost predicate Asking<Row>(worker: MatrixWorker<Row>, servers: seq<MatrixServer<Row>>, ids: seq<int>,
                              partKeys: seq<seq<int>>, m: seq<Row>)
    reads worker, Storages(servers)
  {
    && worker.Valid() && Indexed(worker.rowIndex, ids, |m|) && worker.numRow == |m|
    && Scattered(servers, worker.offsets, |m|, ids, partKeys)
    && ShardsOf(servers, worker.offsets, m, m, {})
  }

  /** One server's rows of the request. */
  method AskServer<Row>(worker: MatrixWorker<Row>, servers: seq<MatrixServer<Row>>, i: nat, ids: seq<int>,
                        partKeys: seq<seq<int>>, ghost m: seq<Row>) returns (rows: seq<Row>)
    requires Asking(worker, servers, ids, partKeys, m) && i < |partKeys|
    ensures Within(partKeys[i], 0, |m|) && |rows| == |partKeys[i]|
    ensures forall j :: 0 <= j < |rows| ==> rows[j] == m[partKeys[i][j]]
  {
    ghost var offsets := worker.offsets;
    assert Follows(servers[i], offsets, i);
    PartWithin(offsets, ids, i, |ids|);
    NotWhole(partKeys[i], offsets[i], offsets[i + 1]);
    assert HoldsShard(servers[i].storage[..], offsets, m, i);
    rows := servers[i].ProcessGet(partKeys[i]);
    forall j | 0 <= j < |rows|
      ensures rows[j] == m[partKeys[i][j]]
    {
      assert rows[j] == servers[i].storage[..][partKeys[i][j] - offsets[i]];
    }
  }

  /** The rows that are asked for have a place. */
  lemma PlacesExist(offsets: seq<nat>, rowIndex: seq<int>, ids: seq<int>, numRow: nat, i: nat)
    requires Indexed(rowIndex, ids, numRow)
    ensures var keys := PartKeys(offsets, ids, i, |ids|);
            forall j :: 0 <= j < |keys| ==> 0 <= keys[j] < numRow && 0 <= rowIndex[keys[j]] < |ids|
  {
    var keys := PartKeys(offsets, ids, i, |ids|);
    forall j: nat | j < |keys|
      ensures 0 <= keys[j] < numRow && 0 <= rowIndex[keys[j]] < |ids|
    {
      var k := PartFrom(offsets, ids, i, |ids|, j);
    }
  }

  method GetPart<Row>(worker: MatrixWorker<Row>, servers: seq<MatrixServer<Row>>, i: nat, ids: seq<int>,
                      partKeys: seq<seq<int>>, data: array<Row>,
                      ghost before: seq<Row>, ghost m: seq<Row>, ghost done: set<nat>) returns (ok: bool)
    requires Asking(worker, servers, ids, partKeys, m) && i < |partKeys| && i !in done
    requires data !in Storages(servers) && Gathered(data[..], before, ids, m, worker.offsets, done)
    requires worker.getReplyCount == |Pending(partKeys, done)|
    modifies worker`getReplyCount, data
    ensures ok && Gathered(data[..], before, ids, m, worker.offsets, done + {i})
    ensures worker.getReplyCount == |Pending(partKeys, done + {i})|
  {
    ghost var t: seq<Row> := data[..];
    PlacesExist(worker.offsets, worker.rowIndex, ids, |m|, i);
    PendingStep(partKeys, done, i);
    var rows := [];
    ok := true;
    if partKeys[i] != [] {
      rows := AskServer(worker, servers, i, ids, partKeys, m);
      ok := worker.ProcessReplyRows(data, partKeys[i], rows);
    }
    GatherStep(t, data[..], before, ids, m, worker.offsets, done, i, worker.rowIndex, rows);
  }

  /** A row-list get: every place that is the last to ask for its row gets that row of the flat matrix,
      all other places keep what they held. Replies may come in any order. */
  method GetRowList<Row>(worker: MatrixWorker<Row>, servers: seq<MatrixServer<Row>>, ids: seq<int>, data: array<Row>,
                         order: seq<nat>, ghost m: seq<Row>) returns (ok: bool)
    requires SameTable(worker, servers) && Stores(worker, servers, m) && worker.getReplyCount == 0
    requires Within(ids, 0, worker.numRow) && data.Length == |ids| && data !in Storages(servers)
    requires IsOrder(order, worker.NumServer())
    modifies worker, data
    ensures ok && SameTable(worker, servers) && Stores(worker, servers, m) && worker.getReplyCount == 0
    ensures forall p: nat :: p < |ids| ==> data[p] == if IsLast(ids, p) then m[ids[p]] else old(data[p])
  {
    ghost var before: seq<Row> := data[..];
    RangesAgree(worker, servers);
    worker.IndexRows(ids);
    var partKeys, _ := worker.Partition(ids, [], false);
    NothingGathered(before, ids, m, worker.offsets);
    ok := GetParts(worker, servers, ids, partKeys, data, order, before, m);
    AllGathered(data[..], before, ids, m, worker.offsets, order);
  }

  method GetNext<Row>(worker: MatrixWorker<Row>, servers: seq<MatrixServer<Row>>, ids: seq<int>,
                      partKeys: seq<seq<int>>, data: array<Row>, order: seq<nat>, k: nat,
                      ghost before: seq<Row>, ghost m: seq<Row>) returns (ok: bool)
    requires Asking(worker, servers, ids, partKeys, m) && IsOrder(order, |partKeys|) && k < |order|
    requires data !in Storages(servers) && Gathered(data[..], before, ids, m, worker.offsets, Done(order, k))
    requires worker.getReplyCount == |Pending(partKeys, Done(order, k))|
    modifies worker`getReplyCount, data
    ensures ok && Gathered(data[..], before, ids, m, worker.offsets, Done(order, k + 1))
    ensures Asking(worker, servers, ids, partKeys, m)
    ensures worker.getReplyCount == |Pending(partKeys, Done(order, k + 1))|
  {
    NotDoneYet(order, |partKeys|, k);
    ok := GetPart(worker, servers, order[k], ids, partKeys, data, before, m, Done(order, k));
  }

  method GetParts<Row>(worker: MatrixWorker<Row>, servers: seq<MatrixServer<Row>>, ids: seq<int>,
                       partKeys: seq<seq<int>>, data: array<Row>, order: seq<nat>,
                       ghost before: seq<Row>, ghost m: seq<Row>) returns (ok: bool)
    requires Asking(worker, servers, ids, partKeys, m) && IsOrder(order, |partKeys|)
    requires data !in Storages(servers) && Gathered(data[..], before, ids, m, worker.offsets, {})
    requires worker.getReplyCount == |Pending(partKeys, {})|
    modifies worker`getReplyCount, data
    ensures ok && Gathered(data[..], before, ids, m, worker.offsets, Done(order, |order|))
    ensures worker.getReplyCount == 0
  {
    ok := true;
    for k := 0 to |order|
      invariant ok && Gathered(data[..], before, ids, m, worker.offsets, Done(order, k))
      invariant Asking(worker, servers, ids, partKeys, m)
      invariant worker.getReplyCount == |Pending(partKeys, Done(order, k))|
    {
      ok := GetNext(worker, servers, ids, partKeys, data, order, k, before, m);
    }
    NothingPending(partKeys, order);
  }

  lemma NothingGathered<Row>(before: seq<Row>, ids: seq<int>, m: seq<Row>, offsets: seq<nat>)
    requires Within(ids, 0, |m|) && |before| == |ids|
    ensures Gathered(before, before, ids, m, offsets, {})
  {
  }

  lemma NothingPending(partKeys: seq<seq<int>>, order: seq<nat>)
    requires IsOrder(order, |partKeys|)
    ensures |Pending(partKeys, Done(order, |order|))| == 0
  {
    forall i: nat | i < |partKeys|
      ensures i in Done(order, |order|)
    {
      AllDone(order, |order|, i);
    }
    assert Pending(partKeys, Done(order, |order|)) == {};
  }

  lemma AllGathered<Row>(data: seq<Row>, before: seq<Row>, ids: seq<int>, m: seq<Row>, offsets: seq<nat>,
                         order: seq<nat>)
    requires IsLayout(offsets, |m|) && Within(ids, 0, |m|) && IsOrder(order, |offsets| - 1)
    requires Gathered(data, before, ids, m, offsets, Done(order, |order|))
    ensures forall p: nat :: p < |ids| ==> data[p] == if IsLast(ids, p) then m[ids[p]] else before[p]
  {
    forall p: nat | p < |ids|
      ensures data[p] == if IsLast(ids, p) then m[ids[p]] else before[p]
    {
      assert GatheredAt(data, before, ids, m, offsets, Done(order, |order|), p);
      var i := OwnerOf(offsets, |m|, ids[p], |offsets| - 1);
      AllDone(order, |order|, i);
    }
  }

  lemma {:induction false} OwnerOf(offsets: seq<nat>, numRow: nat, key: int, k: nat) returns (i: nat)
    requires IsLayout(offsets, numRow) && 0 < k < |offsets| && 0 <= key < offsets[k]
    ensures Owns(offsets, i, key)
  {
    if offsets[k - 1] <= key {
      i := k - 1;
    } else {
      i := OwnerOf(offsets, numRow, key, k - 1);
    }
  }

  /** Distinct rows: every place is filled. */
  lemma DistinctAreLast(ids: seq<int>, p: nat)
    requires DistinctKeys(ids) && p < |ids|
    ensures IsLast(ids, p)
  {
  }

  // ---- getting the whole table ----

  ghost predicate Copied<Row>(data: seq<Row>, m: seq<Row>, offsets: seq<nat>, done: set<nat>)
  {
    |data| == |m| && forall p: nat :: p < |m| && OwnerIn(offsets, p, done) ==> data[p] == m[p]
  }

  method AskWhole<Row>(servers: seq<MatrixServer<Row>>, i: nat, ghost offsets: seq<nat>, ghost m: seq<Row>)
    returns (rows: seq<Row>)
    requires FollowLayout(servers, offsets) && ShardsOf(servers, offsets, m, m, {}) && i < |offsets| - 1
    ensures rows == Shard(m, offsets, i)
  {
    assert Follows(servers[i], offsets, i);
    assert HoldsShard(servers[i].storage[..], offsets, m, i);
    rows := servers[i].ProcessGet([WHOLE_TABLE]);
  }

  method GetWholePart<Row>(worker: MatrixWorker<Row>, servers: seq<MatrixServer<Row>>, i: nat, data: array<Row>,
                           ghost m: seq<Row>, ghost done: set<nat>) returns (ok: bool)
    requires worker.Valid() && worker.numRow == |m| && FollowLayout(servers, worker.offsets)
    requires ShardsOf(servers, worker.offsets, m, m, {}) && worker.rowIndex[worker.numRow] == 0
    requires i < worker.NumServer() && worker.getReplyCount > 0
    requires data !in Storages(servers) && Copied(data[..], m, worker.offsets, done)
    modifies worker`getReplyCount, data
    ensures ok && Copied(data[..], m, worker.offsets, done + {i})
    ensures worker.getReplyCount == old(worker.getReplyCount) - 1
  {
    ghost var t: seq<Row> := data[..];
    ghost var offsets := worker.offsets;
    assert Follows(servers[i], offsets, i);
    var rows := AskWhole(servers, i, offsets, m);
    ok := worker.ProcessReplyAll(data, rows, servers[i].serverId);
    CopyStep(t, data[..], m, offsets, done, i);
  }

  lemma CopyStep<Row>(data: seq<Row>, data': seq<Row>, m: seq<Row>, offsets: seq<nat>, done: set<nat>, i: nat)
    requires IsLayout(offsets, |m|) && i + 1 < |offsets| && |data'| == |data|
    requires Copied(data, m, offsets, done)
    requires forall p: nat :: p < |data| ==> data'[p] == if offsets[i] <= p < offsets[i + 1] then m[p] else data[p]
    ensures Copied(data', m, offsets, done + {i})
  {
    forall p: nat | p < |m| && OwnerIn(offsets, p, done + {i})
      ensures data'[p] == m[p]
    {
      OwnerStep(offsets, p, done, i);
    }
  }

  /** A whole-table get fills the buffer with the flat matrix. */
  method GetWhole<Row>(worker: MatrixWorker<Row>, servers: seq<MatrixServer<Row>>, data: array<Row>,
                       order: seq<nat>, ghost m: seq<Row>) returns (ok: bool)
    requires SameTable(worker, servers) && Stores(worker, servers, m) && worker.getReplyCount == 0
    requires data.Length == worker.numRow && data !in Storages(servers) && IsOrder(order, worker.NumServer())
    modifies worker, data
    ensures ok && SameTable(worker, servers) && Stores(worker, servers, m) && worker.getReplyCount == 0
    ensures data[..] == m
  {
    RangesAgree(worker, servers);
    worker.IndexAll();
    worker.AskAll();
    ok := GetWholeParts(worker, servers, data, order, m);
    AllCopied(data[..], m, worker.offsets, order);
  }

  method GetWholeParts<Row>(worker: MatrixWorker<Row>, servers: seq<MatrixServer<Row>>, data: array<Row>,
                            order: seq<nat>, ghost m: seq<Row>) returns (ok: bool)
    requires worker.Valid() && worker.numRow == |m| && FollowLayout(servers, worker.offsets)
    requires ShardsOf(servers, worker.offsets, m, m, {}) && worker.rowIndex[worker.numRow] == 0
    requires worker.getReplyCount == worker.NumServer() && IsOrder(order, worker.NumServer())
    requires data.Length == |m| && data !in Storages(servers)
    modifies worker`getReplyCount, data
    ensures ok && worker.getReplyCount == 0
    ensures Copied(data[..], m, worker.offsets, Done(order, |order|))
  {
    ok := true;
    for k := 0 to |order|
      invariant ok && Copied(data[..], m, worker.offsets, Done(order, k))
      invariant worker.getReplyCount == worker.NumServer() - k
    {
      NotDoneYet(order, |order|, k);
      ok := GetWholePart(worker, servers, order[k], data, m, Done(order, k));
    }
  }

  lemma AllCopied<Row>(data: seq<Row>, m: seq<Row>, offsets: seq<nat>, order: seq<nat>)
    requires IsLayout(offsets, |m|) && IsOrder(order, |offsets| - 1)
    requires Copied(data, m, offsets, Done(order, |order|))
    ensures data == m
  {
    forall p: nat | p < |m|
      ensures data[p] == m[p]
    {
      var i := OwnerOf(offsets, |m|, p, |offsets| - 1);
      AllDone(order, |order|, i);
    }
  }
}
