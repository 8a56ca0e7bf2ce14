/** Any sequence of adds and gets, by any workers, reaching the servers in any order, behaves as on one
    flat matrix. */
module MatrixRuns {
  import opened RowRanges
  import opened MatrixModel
  import opened MatrixTable
  import opened ShardedMatrix

  /** A request of a worker. order is the order in which the servers, and their replies, are reached. */
  datatype Request<Row> =
    | AddList(worker: nat, order: seq<nat>, keys: seq<int>, rows: seq<Row>)
    | AddTable(worker: nat, order: seq<nat>, rows: seq<Row>)
    | GetList(worker: nat, order: seq<nat>, ids: seq<int>)
    | GetTable(worker: nat, order: seq<nat>)

  /** What the callers' checks ask of a request. */
  ghost predicate Fits<Row>(q: Request<Row>, numRow: nat)
  {
    match q
    case AddList(_, _, keys, rows) => Within(keys, 0, numRow) && |rows| == |keys|
    case AddTable(_, _, rows) => |rows| == numRow
    case GetList(_, _, ids) => Within(ids, 0, numRow)
    case GetTable(_, _) => true
  }

  ghost predicate AllFit<Row>(qs: seq<Request<Row>>, numRow: nat)
  {
    forall i :: 0 <= i < |qs| ==> Fits(qs[i], numRow)
  }

  /** participants is the number of servers that take part. */
  ghost predicate AllRouted<Row>(qs: seq<Request<Row>>, numWorkers: nat, participants: int)
  {
    forall i :: 0 <= i < |qs| ==> qs[i].worker < numWorkers && IsOrder(qs[i].order, participants)
  }

  // ---- the flat matrix ----

  ghost function FlatStep<Row>(m: seq<Row>, q: Request<Row>, up: Updater<Row>): (m': seq<Row>)
    requires Fits(q, |m|)
    ensures |m'| == |m|
  {
    match q
    case AddList(_, _, keys, rows) => AddRows(m, 0, keys, rows, up, |keys|)
    case AddTable(_, _, rows) => AddAll(m, rows, up)
    case _ => m
  }

  /** The flat matrix after the first k requests. */
  ghost function Flat<Row>(m: seq<Row>, qs: seq<Request<Row>>, up: Updater<Row>, k: nat): (m': seq<Row>)
    requires k <= |qs| && AllFit(qs, |m|)
    ensures |m'| == |m|
  {
    if k == 0 then m else FlatStep(Flat(m, qs, up, k - 1), qs[k - 1], up)
  }

  /** What a request finds on the flat matrix m. A place that asks for a row again later stays as it was. */
  ghost function Found<Row>(m: seq<Row>, q: Request<Row>, blank: Row): (rows: seq<Row>)
    requires Fits(q, |m|)
  {
    match q
    case GetList(_, _, ids) => seq(|ids|, p requires 0 <= p < |ids| => if IsLast(ids, p) then m[ids[p]] else blank)
    case GetTable(_, _) => m
    case _ => []
  }

  /** What the request is to find: the whole matrix, or each row asked for at the last place that asks for
      it. */
  ghost predicate IsFound<Row>(m: seq<Row>, q: Request<Row>, blank: Row, rows: seq<Row>)
    requires Fits(q, |m|)
  {
    match q
    case GetTable(_, _) => rows == m
    case GetList(_, _, ids) =>
      && |rows| == |ids|
      && forall p :: 0 <= p < |ids| ==> rows[p] == if ids[p] in ids[p + 1..] then blank else m[ids[p]]
    case _ => rows == []
  }

  lemma FoundIs<Row>(m: seq<Row>, q: Request<Row>, blank: Row)
    requires Fits(q, |m|)
    ensures IsFound(m, q, blank, Found(m, q, blank))
  {
    if q.GetList? {
      forall p: nat | p < |q.ids|
        ensures IsLast(q.ids, p) <==> q.ids[p] !in q.ids[p + 1..]
      {
        LastExactly(q.ids, p);
      }
    }
  }

  lemma LastExactly(ids: seq<int>, p: nat)
    requires p < |ids|
    ensures IsLast(ids, p) <==> ids[p] !in ids[p + 1..]
  {
    if ids[p] in ids[p + 1..] {
      var j :| 0 <= j < |ids| - p - 1 && ids[p + 1..][j] == ids[p];
      assert ids[p + 1 + j] == ids[p];
    } else {
      forall j | p < j < |ids|
        ensures ids[j] != ids[p]
      {
        assert ids[p + 1..][j - p - 1] == ids[j];
      }
    }
  }

  /** What the request is to do: nothing, or every row takes the deltas that name it. */
  ghost predicate IsStepOf<Row>(m: seq<Row>, q: Request<Row>, up: Updater<Row>, m': seq<Row>)
    requires Fits(q, |m|)
  {
    match q
    case AddTable(_, _, rows) => |m'| == |m| && forall r :: 0 <= r < |m| ==> m'[r] == up(m[r], rows[r])
    case AddList(_, _, keys, rows) => RowsUpdated(m, m', 0, keys, rows, up)
    case _ => m' == m
  }

  lemma StepIs<Row>(m: seq<Row>, q: Request<Row>, up: Updater<Row>)
    requires Fits(q, |m|)
    ensures IsStepOf(m, q, up, FlatStep(m, q, up))
  {
    if q.AddList? {
      AddRowsUpdates(m, 0, q.keys, q.rows, up);
    }
  }

  /** The checks of the servers hold for a request. */
  ghost predicate Passes<Row>(q: Request<Row>, offsets: seq<nat>)
  {
    q.AddList? ==> PartsFit(offsets, q.keys)
  }

  // ---- a table ----

  /** Workers and servers of one table, no worker waiting for a reply. */
  ghost predicate IsTable<Row>(workers: seq<MatrixWorker<Row>>, servers: seq<MatrixServer<Row>>, offsets: seq<nat>,
                               numRow: nat)
    reads workers
  {
    forall i :: 0 <= i < |workers| ==> Idle(workers[i], servers, offsets, numRow)
  }

  ghost predicate Idle<Row>(worker: MatrixWorker<Row>, servers: seq<MatrixServer<Row>>, offsets: seq<nat>, numRow: nat)
    reads worker
  {
    && SameTable(worker, servers) && worker.offsets == offsets && worker.numRow == numRow
    && worker.getReplyCount == 0
  }

  /** The servers together store the flat matrix m. */
  ghost predicate Holds<Row>(servers: seq<MatrixServer<Row>>, offsets: seq<nat>, m: seq<Row>)
    reads Storages(servers)
  {
    ShardsOf(servers, offsets, m, m, {})
  }

  /** Two workers' offsets are the same. */
  lemma OffsetsAreUnique(a: seq<nat>, b: seq<nat>, numRow: nat, numServers: nat)
    requires numServers > 0 && Agrees(a, numRow, numServers) && Agrees(b, numRow, numServers)
    requires numRow > 0 ==> |a| == |b|
    ensures a == b
  {
    if numRow == 0 {
      NoRowsOneRange(a, numServers);
      NoRowsOneRange(b, numServers);
    }
    forall i: nat | i < |a|
      ensures a[i] == b[i]
    {
      if i < |a| - 1 {
        assert RangeAgrees(a, numRow, numServers, i) && RangeAgrees(b, numRow, numServers, i);
      }
    }
  }

  lemma NoRowsOneRange(a: seq<nat>, numServers: nat)
    requires numServers > 0 && Agrees(a, 0, numServers)
    ensures |a| == 2
  {
    if |a| > 2 {
      SecondRangeIsWrong(a, numServers);
    }
  }

  lemma SecondRangeIsWrong(a: seq<nat>, numServers: nat)
    requires IsLayout(a, 0) && 2 < |a| <= numServers + 1
    ensures !RangeAgrees(a, 0, numServers, 1)
  {
    assert 0 / numServers == 0;
  }

  /** The number of servers that take part: no more than there are rows, but one at least. */
  function Participants(numRow: nat, numServers: nat): nat
  {
    if numRow == 0 then 1 else if numRow < numServers then numRow else numServers
  }

  /** A new table: all rows zero. */
  method NewTable<Row>(numRow: nat, numServers: nat, numWorkers: nat, zero: Row)
    returns (workers: seq<MatrixWorker<Row>>, servers: seq<MatrixServer<Row>>, ghost offsets: seq<nat>)
    requires numServers > 0 && numWorkers > 0
    ensures |workers| == numWorkers && |servers| == numServers
    ensures IsTable(workers, servers, offsets, numRow)
    ensures Holds(servers, offsets, seq(numRow, _ => zero))
    ensures forall i: nat :: i < |workers| ==> fresh(workers[i])
    ensures forall i: nat :: i < |servers| ==> fresh(servers[i].storage)
    ensures |offsets| - 1 == Participants(numRow, numServers)
  {
    servers := NewServers(numRow, numServers, zero);
    workers := NewWorkers(numRow, numServers, numWorkers, servers);
    offsets := workers[0].offsets;
    ZeroShards(servers, offsets, numRow, zero);
    assert Idle(workers[0], servers, offsets, numRow);
    if numRow == 0 {
      NoRowsOneRange(offsets, numServers);
    }
  }

  method NewServers<Row>(numRow: nat, numServers: nat, zero: Row) returns (servers: seq<MatrixServer<Row>>)
    ensures |servers| == numServers && AreServers(servers, numRow)
    ensures forall i: nat, r: nat :: i < numServers && r < servers[i].storage.Length ==> servers[i].storage[r] == zero
    ensures forall i: nat :: i < |servers| ==> fresh(servers[i].storage)
  {
    servers := [];
    for i := 0 to numServers
      invariant |servers| == i
      invariant forall j: nat :: j < i ==> IsServer(servers[j], numRow, numServers, j)
      invariant forall j: nat, k: nat :: j < k < i ==> servers[j].storage != servers[k].storage
      invariant forall j: nat, r: nat :: j < i && r < servers[j].storage.Length ==> servers[j].storage[r] == zero
      invariant forall j: nat :: j < i ==> fresh(servers[j].storage)
    {
      var s := new MatrixServer(numRow, numServers, i, zero);
      servers := servers + [s];
    }
  }

  method NewWorkers<Row>(numRow: nat, numServers: nat, numWorkers: nat, ghost servers: seq<MatrixServer<Row>>)
    returns (workers: seq<MatrixWorker<Row>>)
    requires numServers > 0 && numWorkers > 0 && |servers| == numServers && AreServers(servers, numRow)
    ensures |workers| == numWorkers && IsTable(workers, servers, workers[0].offsets, numRow)
    ensures forall i: nat :: i < |workers| ==> fresh(workers[i])
  {
    workers := [];
    for i := 0 to numWorkers
      invariant |workers| == i
      invariant i > 0 ==> IsTable(workers, servers, workers[0].offsets, numRow)
      invariant forall j: nat :: j < i ==> fresh(workers[j])
    {
      var w := new MatrixWorker<Row>(numRow, numServers);
      if i > 0 {
        assert Idle(workers[0], servers, workers[0].offsets, numRow);
        OffsetsAreUnique(workers[0].offsets, w.offsets, numRow, numServers);
      }
      workers := workers + [w];
    }
  }

  lemma ZeroShards<Row>(servers: seq<MatrixServer<Row>>, offsets: seq<nat>, numRow: nat, zero: Row)
    requires |servers| > 0 && AreServers(servers, numRow) && Agrees(offsets, numRow, |servers|)
    requires forall i: nat, r: nat :: i < |servers| && r < servers[i].storage.Length ==> servers[i].storage[r] == zero
    ensures Holds(servers, offsets, seq(numRow, _ => zero))
  {
    var m := seq(numRow, _ => zero);
    forall i: nat | i < |offsets| - 1
      ensures HoldsShard(servers[i].storage[..], offsets, m, i)
    {
      assert IsServer(servers[i], numRow, |servers|, i);
      assert RangeAgrees(offsets, numRow, |servers|, i);
      assert servers[i].storage[..] == Shard(m, offsets, i);
    }
  }

  // ---- running requests ----

  method ServeAdd<Row>(worker: MatrixWorker<Row>, servers: seq<MatrixServer<Row>>, q: Request<Row>, up: Updater<Row>,
                       ghost offsets: seq<nat>, ghost m: seq<Row>) returns (ok: bool)
    requires Idle(worker, servers, offsets, |m|) && Holds(servers, offsets, m)
    requires (q.AddList? || q.AddTable?) && Fits(q, |m|) && IsOrder(q.order, |offsets| - 1)
    modifies worker`getReplyCount, Storages(servers)
    ensures ok == Passes(q, offsets)
    ensures ok ==> Idle(worker, servers, offsets, |m|) && Holds(servers, offsets, FlatStep(m, q, up))
  {
    match q
    case AddList(_, order, keys, rows) =>
      ok := AddRowList(worker, servers, keys, rows, up, order, m);
    case AddTable(_, order, rows) =>
      ok := AddWhole(worker, servers, rows, up, order, m);
  }

  method ServeGet<Row>(worker: MatrixWorker<Row>, servers: seq<MatrixServer<Row>>, q: Request<Row>, blank: Row,
                       ghost offsets: seq<nat>, ghost m: seq<Row>) returns (ok: bool, rows: seq<Row>)
    requires Idle(worker, servers, offsets, |m|) && Holds(servers, offsets, m)
    requires (q.GetList? || q.GetTable?) && Fits(q, |m|) && IsOrder(q.order, |offsets| - 1)
    modifies worker
    ensures ok && rows == Found(m, q, blank)
    ensures Idle(worker, servers, offsets, |m|) && Holds(servers, offsets, m)
  {
    match q
    case GetList(_, order, ids) =>
      var data := new Row[|ids|](_ => blank);
      ok := GetRowList(worker, servers, ids, data, order, m);
      rows := data[..];
    case GetTable(_, order) =>
      var data := new Row[worker.numRow](_ => blank);
      ok := GetWhole(worker, servers, data, order, m);
      rows := data[..];
  }

  /** One request: it finds the flat matrix and leaves the flat matrix, unless a server's check fails. */
  method Serve<Row>(workers: seq<MatrixWorker<Row>>, servers: seq<MatrixServer<Row>>, q: Request<Row>, up: Updater<Row>,
                    blank: Row, ghost offsets: seq<nat>, ghost m: seq<Row>) returns (ok: bool, rows: seq<Row>)
    requires IsTable(workers, servers, offsets, |m|) && Holds(servers, offsets, m)
    requires Fits(q, |m|) && q.worker < |workers| && IsOrder(q.order, |offsets| - 1)
    modifies set i: nat | i < |workers| :: workers[i], Storages(servers)
    ensures ok == Passes(q, offsets)
    ensures ok ==> rows == Found(m, q, blank) && IsFound(m, q, blank, rows)
    ensures IsStepOf(m, q, up, FlatStep(m, q, up))
    ensures ok ==> IsTable(workers, servers, offsets, |m|) && Holds(servers, offsets, FlatStep(m, q, up))
  {
    StepIs(m, q, up);
    FoundIs(m, q, blank);
    var worker := workers[q.worker];
    assert Idle(worker, servers, offsets, |m|);
    rows := [];
    if q.AddList? || q.AddTable? {
      ok := ServeAdd(worker, servers, q, up, offsets, m);
    } else {
      ok, rows := ServeGet(worker, servers, q, blank, offsets, m);
    }
  }

  /** The first k replies are those of the flat matrix after all earlier adds. */
  ghost predicate Replied<Row>(replies: seq<seq<Row>>, m: seq<Row>, qs: seq<Request<Row>>, up: Updater<Row>, blank: Row)
  {
    && |replies| <= |qs| && AllFit(qs, |m|)
    && forall i: nat :: i < |replies| ==> IsReply(replies[i], m, qs, up, blank, i)
  }

  ghost predicate IsReply<Row>(rows: seq<Row>, m: seq<Row>, qs: seq<Request<Row>>, up: Updater<Row>, blank: Row, i: nat)
    requires i < |qs| && AllFit(qs, |m|)
  {
    rows == Found(Flat(m, qs, up, i), qs[i], blank)
  }

  ghost predicate PassFirst<Row>(qs: seq<Request<Row>>, offsets: seq<nat>, k: nat)
  {
    k <= |qs| && forall i :: 0 <= i < k ==> Passes(qs[i], offsets)
  }

  lemma NextPasses<Row>(qs: seq<Request<Row>>, offsets: seq<nat>, k: nat)
    requires k < |qs|
    ensures PassFirst(qs, offsets, k + 1) <==> PassFirst(qs, offsets, k) && Passes(qs[k], offsets)
    ensures PassFirst(qs, offsets, |qs|) ==> PassFirst(qs, offsets, k + 1)
  {
  }

  lemma ReplyMore<Row>(replies: seq<seq<Row>>, rows: seq<Row>, m: seq<Row>, qs: seq<Request<Row>>, up: Updater<Row>,
                       blank: Row)
    requires Replied(replies, m, qs, up, blank) && |replies| < |qs|
    requires IsReply(rows, m, qs, up, blank, |replies|)
    ensures Replied(replies + [rows], m, qs, up, blank)
  {
    var more := replies + [rows];
    forall i: nat | i < |more|
      ensures IsReply(more[i], m, qs, up, blank, i)
    {
      assert more[i] == if i < |replies| then replies[i] else rows;
    }
  }

  /** The state of a run after the first k requests. */
  ghost predicate Running<Row>(workers: seq<MatrixWorker<Row>>, servers: seq<MatrixServer<Row>>, qs: seq<Request<Row>>,
                               up: Updater<Row>, offsets: seq<nat>, m: seq<Row>, k: nat)
    reads workers, Storages(servers)
  {
    && k <= |qs| && AllFit(qs, |m|) && AllRouted(qs, |workers|, |offsets| - 1)
    && IsTable(workers, servers, offsets, |m|) && Holds(servers, offsets, Flat(m, qs, up, k))
  }

  method ServeNext<Row>(workers: seq<MatrixWorker<Row>>, servers: seq<MatrixServer<Row>>, qs: seq<Request<Row>>,
                        up: Updater<Row>, blank: Row, k: nat, ghost offsets: seq<nat>, ghost m: seq<Row>)
    returns (ok: bool, rows: seq<Row>)
    requires k < |qs| && Running(workers, servers, qs, up, offsets, m, k)
    modifies set i: nat | i < |workers| :: workers[i], Storages(servers)
    ensures ok == Passes(qs[k], offsets)
    ensures ok ==> rows == Found(Flat(m, qs, up, k), qs[k], blank)
    ensures ok ==> Running(workers, servers, qs, up, offsets, m, k + 1)
  {
    ok, rows := Serve(workers, servers, qs[k], up, blank, offsets, Flat(m, qs, up, k));
  }

  /** Where a run has got to: the first k requests have been served and no check has failed. */
  ghost predicate Served<Row>(replies: seq<seq<Row>>, m: seq<Row>, qs: seq<Request<Row>>, up: Updater<Row>, blank: Row,
                              offsets: seq<nat>, k: nat)
  {
    |replies| == k && Replied(replies, m, qs, up, blank) && PassFirst(qs, offsets, k)
  }

  method RunNext<Row>(workers: seq<MatrixWorker<Row>>, servers: seq<MatrixServer<Row>>, qs: seq<Request<Row>>,
                      up: Updater<Row>, blank: Row, k: nat, replies: seq<seq<Row>>,
                      ghost offsets: seq<nat>, ghost m: seq<Row>)
    returns (ok: bool, replies': seq<seq<Row>>)
    requires k < |qs| && Running(workers, servers, qs, up, offsets, m, k)
    requires Served(replies, m, qs, up, blank, offsets, k)
    modifies set i: nat | i < |workers| :: workers[i], Storages(servers)
    ensures ok ==> Running(workers, servers, qs, up, offsets, m, k + 1)
    ensures ok ==> Served(replies', m, qs, up, blank, offsets, k + 1)
    ensures !ok ==> replies' == replies && !PassFirst(qs, offsets, |qs|)
  {
    NextPasses(qs, offsets, k);
    var rows;
    ok, rows := ServeNext(workers, servers, qs, up, blank, k, offsets, m);
    replies' := replies;
    if ok {
      ReplyMore(replies, rows, m, qs, up, blank);
      replies' := replies + [rows];
    }
  }

  /** Any sequence of requests: every get delivers the rows of the flat matrix after all earlier adds.
      Where a check fails the run stops. */
  method RunAll<Row>(workers: seq<MatrixWorker<Row>>, servers: seq<MatrixServer<Row>>, qs: seq<Request<Row>>,
                     up: Updater<Row>, blank: Row, ghost offsets: seq<nat>, ghost m: seq<Row>)
    returns (ok: bool, replies: seq<seq<Row>>)
    requires Running(workers, servers, qs, up, offsets, m, 0)
    modifies set i: nat | i < |workers| :: workers[i], Storages(servers)
    ensures ok == PassFirst(qs, offsets, |qs|)
    ensures Replied(replies, m, qs, up, blank) && (ok ==> |replies| == |qs|)
    ensures ok ==> Running(workers, servers, qs, up, offsets, m, |qs|)
  {
    replies := [];
    for k := 0 to |qs|
      invariant Running(workers, servers, qs, up, offsets, m, k)
      invariant Served(replies, m, qs, up, blank, offsets, k)
    {
      ok, replies := RunNext(workers, servers, qs, up, blank, k, replies, offsets, m);
      if !ok {
        return;
      }
    }
    ok := true;
  }

  /** Requests that name no row twice. */
  ghost predicate NamesRowsOnce<Row>(q: Request<Row>)
  {
    (q.AddList? ==> DistinctKeys(q.keys)) && (q.GetList? ==> DistinctKeys(q.ids))
  }

  /** Then no check fails, and a get delivers exactly the rows it asks for. */
  lemma DistinctRowsAlwaysWork<Row>(q: Request<Row>, offsets: seq<nat>, m: seq<Row>, blank: Row)
    requires IsLayout(offsets, |m|) && NamesRowsOnce(q) && Fits(q, |m|)
    ensures Passes(q, offsets)
    ensures q.GetList? ==> Found(m, q, blank) == RowsAt(m, q.ids)
    ensures q.GetTable? ==> Found(m, q, blank) == m
  {
    if q.AddList? {
      DistinctRowsFit(offsets, |m|, q.keys);
    }
    if q.GetList? {
      forall p: nat | p < |q.ids|
        ensures IsLast(q.ids, p)
      {
        DistinctAreLast(q.ids, p);
      }
    }
  }

  ghost predicate AllNameRowsOnce<Row>(qs: seq<Request<Row>>)
  {
    forall i :: 0 <= i < |qs| ==> NamesRowsOnce(qs[i])
  }

  lemma AllDistinctPass<Row>(qs: seq<Request<Row>>, offsets: seq<nat>, m: seq<Row>, blank: Row)
    requires IsLayout(offsets, |m|) && AllFit(qs, |m|) && AllNameRowsOnce(qs)
    ensures PassFirst(qs, offsets, |qs|)
  {
    forall i: nat | i < |qs|
      ensures Passes(qs[i], offsets)
    {
      DistinctRowsAlwaysWork(qs[i], offsets, m, blank);
    }
  }

  /** From the start: a new table serves any requests as one matrix that is zero at first. If no request
      names a row twice, no check fails. */
  method RunNew<Row>(numRow: nat, numServers: nat, numWorkers: nat, zero: Row, qs: seq<Request<Row>>, up: Updater<Row>,
                     blank: Row)
    returns (ok: bool, replies: seq<seq<Row>>, ghost offsets: seq<nat>)
    requires numServers > 0 && numWorkers > 0 && AllFit(qs, numRow)
    requires AllRouted(qs, numWorkers, Participants(numRow, numServers))
    ensures Replied(replies, seq(numRow, _ => zero), qs, up, blank)
    ensures Agrees(offsets, numRow, numServers) && ok == PassFirst(qs, offsets, |qs|)
    ensures ok ==> |replies| == |qs|
    ensures AllNameRowsOnce(qs) ==> ok
  {
    ghost var m := seq(numRow, _ => zero);
    var workers, servers;
    workers, servers, offsets := NewTable(numRow, numServers, numWorkers, zero);
    assert Idle(workers[0], servers, offsets, numRow);
    if AllNameRowsOnce(qs) {
      AllDistinctPass(qs, offsets, m, blank);
    }
    ok, replies := RunAll(workers, servers, qs, up, blank, offsets, m);
  }

  /** With repeated rows the check of a server may fail: two rows each, and three adds to the first. */
  lemma RepeatedRowsMayFail()
    ensures IsLayout([0, 2, 4], 4) && Within([0, 0, 0], 0, 4) && !PartsFit([0, 2, 4], [0, 0, 0])
  {
    var offsets, keys := [0, 2, 4], [0, 0, 0];
    assert PartKeys(offsets, keys, 0, 1) == [0];
    assert PartKeys(offsets, keys, 0, 2) == [0, 0];
    assert PartKeys(offsets, keys, 0, 3) == [0, 0, 0];
    assert !PartFits(offsets, keys, 0);
  }
}
