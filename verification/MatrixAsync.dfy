/** Adds under way at several servers at once: every server applies its parts of the requests in an order
    of its own. With an updater whose deltas commute the servers end up with one flat matrix all the same. */
module MatrixAsync {
  import opened Sums
  import opened RowRanges
  import opened MatrixModel
  import opened MatrixRuns
  import ShardedMatrix

  /** Two deltas may be applied in either order. */
  ghost predicate Commutes<Row(!new)>(up: Updater<Row>)
  {
    forall r, a, b :: up(up(r, a), b) == up(up(r, b), a)
  }

  // ---- requests commute ----

  function AddOne<Row>(m: seq<Row>, key: int, row: Row, up: Updater<Row>): (m': seq<Row>)
    requires 0 <= key < |m|
    ensures |m'| == |m|
  {
    m[key := up(m[key], row)]
  }

  lemma {:induction false} OneAndRows<Row(!new)>(m: seq<Row>, key: int, row: Row, keys: seq<int>, rows: seq<Row>,
                                                 up: Updater<Row>, k: nat)
    requires Commutes(up) && 0 <= key < |m| && k <= |keys| == |rows| && Within(keys, 0, |m|)
    ensures AddRows(AddOne(m, key, row, up), 0, keys, rows, up, k)
         == AddOne(AddRows(m, 0, keys, rows, up, k), key, row, up)
  {
    if k > 0 {
      OneAndRows(m, key, row, keys, rows, up, k - 1);
      var n := AddRows(m, 0, keys, rows, up, k - 1);
      assert up(up(n[key], row), rows[k - 1]) == up(up(n[key], rows[k - 1]), row);
    }
  }

  lemma {:induction false} RowsAndRows<Row(!new)>(m: seq<Row>, a: seq<int>, x: seq<Row>, b: seq<int>, y: seq<Row>,
                                                  up: Updater<Row>, k: nat)
    requires Commutes(up) && k <= |a| == |x| && |b| == |y| && Within(a, 0, |m|) && Within(b, 0, |m|)
    ensures AddRows(AddRows(m, 0, a, x, up, k), 0, b, y, up, |b|)
         == AddRows(AddRows(m, 0, b, y, up, |b|), 0, a, x, up, k)
  {
    if k > 0 {
      RowsAndRows(m, a, x, b, y, up, k - 1);
      OneAndRows(AddRows(m, 0, a, x, up, k - 1), a[k - 1], x[k - 1], b, y, up, |b|);
    }
  }

  lemma {:induction false} AllAndRows<Row(!new)>(m: seq<Row>, all: seq<Row>, keys: seq<int>, rows: seq<Row>,
                                                 up: Updater<Row>, k: nat)
    requires Commutes(up) && |all| == |m| && k <= |keys| == |rows| && Within(keys, 0, |m|)
    ensures AddRows(AddAll(m, all, up), 0, keys, rows, up, k) == AddAll(AddRows(m, 0, keys, rows, up, k), all, up)
  {
    if k > 0 {
      AllAndRows(m, all, keys, rows, up, k - 1);
      var n, at := AddRows(m, 0, keys, rows, up, k - 1), keys[k - 1];
      assert up(up(n[at], all[at]), rows[k - 1]) == up(up(n[at], rows[k - 1]), all[at]);
    }
  }

  lemma AllAndAll<Row(!new)>(m: seq<Row>, a: seq<Row>, b: seq<Row>, up: Updater<Row>)
    requires Commutes(up) && |a| == |b| == |m|
    ensures AddAll(AddAll(m, a, up), b, up) == AddAll(AddAll(m, b, up), a, up)
  {
    forall r | 0 <= r < |m|
      ensures up(up(m[r], a[r]), b[r]) == up(up(m[r], b[r]), a[r])
    {
    }
  }

  /** Any two requests may change places. */
  lemma StepsCommute<Row(!new)>(m: seq<Row>, p: Request<Row>, q: Request<Row>, up: Updater<Row>)
    requires Commutes(up) && Fits(p, |m|) && Fits(q, |m|)
    ensures FlatStep(FlatStep(m, p, up), q, up) == FlatStep(FlatStep(m, q, up), p, up)
  {
    if p.AddList? && q.AddList? {
      RowsAndRows(m, p.keys, p.rows, q.keys, q.rows, up, |p.keys|);
    } else if p.AddList? && q.AddTable? {
      AllAndRows(m, q.rows, p.keys, p.rows, up, |p.keys|);
    } else if p.AddTable? && q.AddList? {
      AllAndRows(m, p.rows, q.keys, q.rows, up, |q.keys|);
    } else if p.AddTable? && q.AddTable? {
      AllAndAll(m, p.rows, q.rows, up);
    }
  }

  // ---- a matrix that some of the requests have reached ----

  /** Those of the first k requests that are among `done`, in order. */
  ghost function Mixed<Row>(m: seq<Row>, qs: seq<Request<Row>>, up: Updater<Row>, done: set<nat>, k: nat)
    : (m': seq<Row>)
    requires k <= |qs| && AllFit(qs, |m|)
    ensures |m'| == |m|
  {
    if k == 0 then m
    else if k - 1 in done then FlatStep(Mixed(m, qs, up, done, k - 1), qs[k - 1], up)
    else Mixed(m, qs, up, done, k - 1)
  }

  lemma {:induction false} LaterDoesNotMatter<Row>(m: seq<Row>, qs: seq<Request<Row>>, up: Updater<Row>, done: set<nat>,
                                                   q: nat, k: nat)
    requires k <= q && k <= |qs| && AllFit(qs, |m|)
    ensures Mixed(m, qs, up, done + {q}, k) == Mixed(m, qs, up, done, k)
  {
    if k > 0 {
      LaterDoesNotMatter(m, qs, up, done, q, k - 1);
    }
  }

  /** A request that arrives late might as well have arrived in its turn. */
  lemma {:induction false} LateIsInTurn<Row(!new)>(m: seq<Row>, qs: seq<Request<Row>>, up: Updater<Row>, done: set<nat>,
                                                   q: nat, k: nat)
    requires Commutes(up) && q < k <= |qs| && AllFit(qs, |m|) && q !in done
    ensures Mixed(m, qs, up, done + {q}, k) == FlatStep(Mixed(m, qs, up, done, k), qs[q], up)
  {
    if q == k - 1 {
      LaterDoesNotMatter(m, qs, up, done, q, k - 1);
    } else {
      LateIsInTurn(m, qs, up, done, q, k - 1);
      if k - 1 in done {
        StepsCommute(Mixed(m, qs, up, done, k - 1), qs[q], qs[k - 1], up);
      }
    }
  }

  lemma {:induction false} AllArrived<Row>(m: seq<Row>, qs: seq<Request<Row>>, up: Updater<Row>, done: set<nat>, k: nat)
    requires k <= |qs| && AllFit(qs, |m|) && forall q: nat :: q < k ==> q in done
    ensures Mixed(m, qs, up, done, k) == Flat(m, qs, up, k)
  {
    if k > 0 {
      AllArrived(m, qs, up, done, k - 1);
    }
  }

  // ---- runs ----

  /** What every server stores, and which requests have reached it. */
  datatype Servers<Row> = Servers(storages: seq<seq<Row>>, done: seq<set<nat>>)

  ghost predicate Shape<Row>(s: Servers<Row>, offsets: seq<nat>, numRow: nat)
  {
    && IsLayout(offsets, numRow) && |s.storages| == |s.done| == |offsets| - 1
    && forall i :: 0 <= i < |s.storages| ==> |s.storages[i]| == offsets[i + 1] - offsets[i]
  }

  /** What server i makes of its part of a request. */
  ghost function PartStep<Row>(storage: seq<Row>, offsets: seq<nat>, i: nat, q: Request<Row>, numRow: nat,
                               up: Updater<Row>): (s: seq<Row>)
    requires IsLayout(offsets, numRow) && i + 1 < |offsets| && Fits(q, numRow)
    requires |storage| == offsets[i + 1] - offsets[i]
    ensures |s| == |storage|
  {
    match q
    case AddList(_, _, keys, rows) =>
      PartWithin(offsets, keys, i, |keys|);
      var part := PartKeys(offsets, keys, i, |keys|);
      AddRows(storage, offsets[i], part, PartRows(offsets, keys, rows, i, |keys|), up, |part|)
    case AddTable(_, _, rows) => AddAll(storage, Shard(rows, offsets, i), up)
    case _ => storage
  }

  /** A server's part of a request does to its shard what the request does to the flat matrix. */
  lemma PartStepIsShard<Row>(m: seq<Row>, offsets: seq<nat>, i: nat, q: Request<Row>, up: Updater<Row>)
    requires IsLayout(offsets, |m|) && i + 1 < |offsets| && Fits(q, |m|)
    ensures PartStep(Shard(m, offsets, i), offsets, i, q, |m|, up) == Shard(FlatStep(m, q, up), offsets, i)
  {
    match q
    case AddList(_, _, keys, rows) => PartsAreShards(m, offsets, keys, rows, up, i, |keys|);
    case AddTable(_, _, rows) => ShardedMatrix.ShardOfSum(m, rows, up, offsets, i);
    case _ =>
  }

  /** Request q reaches server i, whose check it passes. */
  ghost predicate Reaches<Row>(s: Servers<Row>, t: Servers<Row>, offsets: seq<nat>, numRow: nat,
                               qs: seq<Request<Row>>, up: Updater<Row>, i: nat, q: nat)
    requires AllFit(qs, numRow) && Shape(s, offsets, numRow)
  {
    && i < |s.storages| && q < |qs| && q !in s.done[i] && Passes(qs[q], offsets)
    && t == Servers(s.storages[i := PartStep(s.storages[i], offsets, i, qs[q], numRow, up)],
                    s.done[i := s.done[i] + {q}])
  }

  ghost predicate Leads<Row(!new)>(s: Servers<Row>, t: Servers<Row>, offsets: seq<nat>, numRow: nat,
                                   qs: seq<Request<Row>>, up: Updater<Row>)
    requires AllFit(qs, numRow)
  {
    Shape(s, offsets, numRow) && exists i: nat, q: nat :: Reaches(s, t, offsets, numRow, qs, up, i, q)
  }

  ghost predicate StepAt<Row(!new)>(runs: seq<Servers<Row>>, offsets: seq<nat>, numRow: nat,
                                    qs: seq<Request<Row>>, up: Updater<Row>, t: nat)
    requires AllFit(qs, numRow) && t + 1 < |runs|
  {
    Leads(runs[t], runs[t + 1], offsets, numRow, qs, up)
  }

  /** From the shards of m, no request having reached any server. */
  ghost predicate IsRun<Row(!new)>(runs: seq<Servers<Row>>, offsets: seq<nat>, m: seq<Row>,
                                   qs: seq<Request<Row>>, up: Updater<Row>)
  {
    && IsLayout(offsets, |m|) && AllFit(qs, |m|) && runs != [] && Shape(runs[0], offsets, |m|)
    && (forall i: nat :: i < |offsets| - 1 ==> runs[0].storages[i] == Shard(m, offsets, i) && runs[0].done[i] == {})
    && forall t: nat :: t + 1 < |runs| ==> StepAt(runs, offsets, |m|, qs, up, t)
  }

  /** Server i stores its shard of the matrix that its requests make. */
  ghost predicate StoresMixed<Row>(s: Servers<Row>, offsets: seq<nat>, m: seq<Row>, qs: seq<Request<Row>>,
                                   up: Updater<Row>, i: nat)
    requires IsLayout(offsets, |m|) && AllFit(qs, |m|) && i + 1 < |offsets|
  {
    && i < |s.storages| && i < |s.done|
    && s.storages[i] == Shard(Mixed(m, qs, up, s.done[i], |qs|), offsets, i)
  }

  ghost predicate Inv<Row>(s: Servers<Row>, offsets: seq<nat>, m: seq<Row>, qs: seq<Request<Row>>, up: Updater<Row>)
    requires AllFit(qs, |m|)
  {
    && Shape(s, offsets, |m|)
    && forall i: nat :: i < |offsets| - 1 ==> StoresMixed(s, offsets, m, qs, up, i)
  }

  lemma StepKeeps<Row(!new)>(s: Servers<Row>, t: Servers<Row>, offsets: seq<nat>, m: seq<Row>, qs: seq<Request<Row>>,
                             up: Updater<Row>)
    requires Commutes(up) && AllFit(qs, |m|) && Inv(s, offsets, m, qs, up)
    requires Leads(s, t, offsets, |m|, qs, up)
    ensures Inv(t, offsets, m, qs, up)
  {
    var i: nat, q: nat :| Reaches(s, t, offsets, |m|, qs, up, i, q);
    assert StoresMixed(s, offsets, m, qs, up, i);
    LateIsInTurn(m, qs, up, s.done[i], q, |qs|);
    PartStepIsShard(Mixed(m, qs, up, s.done[i], |qs|), offsets, i, qs[q], up);
    forall j: nat | j < |offsets| - 1
      ensures StoresMixed(t, offsets, m, qs, up, j)
    {
      assert StoresMixed(s, offsets, m, qs, up, j);
    }
  }

  lemma {:induction false} NothingArrived<Row>(m: seq<Row>, qs: seq<Request<Row>>, up: Updater<Row>, k: nat)
    requires k <= |qs| && AllFit(qs, |m|)
    ensures Mixed(m, qs, up, {}, k) == m
  {
    if k > 0 {
      NothingArrived(m, qs, up, k - 1);
    }
  }

  lemma StartIsFine<Row(!new)>(runs: seq<Servers<Row>>, offsets: seq<nat>, m: seq<Row>,
                               qs: seq<Request<Row>>, up: Updater<Row>)
    requires IsRun(runs, offsets, m, qs, up)
    ensures Inv(runs[0], offsets, m, qs, up)
  {
    NothingArrived(m, qs, up, |qs|);
  }

  lemma NextKeeps<Row(!new)>(runs: seq<Servers<Row>>, offsets: seq<nat>, m: seq<Row>,
                             qs: seq<Request<Row>>, up: Updater<Row>, t: nat)
    requires Commutes(up) && IsRun(runs, offsets, m, qs, up) && t + 1 < |runs|
    requires Inv(runs[t], offsets, m, qs, up)
    ensures Inv(runs[t + 1], offsets, m, qs, up)
  {
    assert StepAt(runs, offsets, |m|, qs, up, t);
    StepKeeps(runs[t], runs[t + 1], offsets, m, qs, up);
  }

  /** At any time, in every run, every server stores its shard of the flat matrix that exactly the requests
      which have reached it make. */
  lemma {:induction false} ServersStoreWhatArrived<Row(!new)>(runs: seq<Servers<Row>>, offsets: seq<nat>, m: seq<Row>,
                                                              qs: seq<Request<Row>>, up: Updater<Row>, t: nat)
    requires Commutes(up) && IsRun(runs, offsets, m, qs, up) && t < |runs|
    ensures Inv(runs[t], offsets, m, qs, up)
  {
    if t == 0 {
      StartIsFine(runs, offsets, m, qs, up);
    } else {
      ServersStoreWhatArrived(runs, offsets, m, qs, up, t - 1);
      NextKeeps(runs, offsets, m, qs, up, t - 1);
    }
  }

  ghost predicate AllReached<Row>(s: Servers<Row>, i: nat, n: nat)
  {
    i < |s.done| && forall q: nat :: q < n ==> q in s.done[i]
  }

  /** Once all requests have arrived at a server, in whatever order, it stores its shard of the flat matrix
      after all of them. */
  lemma ServersConverge<Row(!new)>(runs: seq<Servers<Row>>, offsets: seq<nat>, m: seq<Row>,
                                   qs: seq<Request<Row>>, up: Updater<Row>, t: nat, i: nat)
    requires Commutes(up) && IsRun(runs, offsets, m, qs, up) && t < |runs| && i < |offsets| - 1
    requires AllReached(runs[t], i, |qs|)
    ensures i < |runs[t].storages|
    ensures runs[t].storages[i] == Shard(Flat(m, qs, up, |qs|), offsets, i)
  {
    ServersStoreWhatArrived(runs, offsets, m, qs, up, t);
    assert StoresMixed(runs[t], offsets, m, qs, up, i);
    AllArrived(m, qs, up, runs[t].done[i], |qs|);
  }

  // ---- without commuting deltas ----

  ghost predicate MayChangePlaces<Row>(m: seq<Row>, p: Request<Row>, q: Request<Row>, up: Updater<Row>)
    requires Fits(p, |m|) && Fits(q, |m|)
  {
    FlatStep(FlatStep(m, p, up), q, up) == FlatStep(FlatStep(m, q, up), p, up)
  }

  /** Whatever arrives in whatever order, the outcome is the same. */
  ghost predicate OrderIsFree<Row(!new)>(up: Updater<Row>)
  {
    forall m: seq<Row>, p: Request<Row>, q: Request<Row> | Fits(p, |m|) && Fits(q, |m|) :: MayChangePlaces(m, p, q, up)
  }

  /** One row, one server, two adds: the outcome depends on their order. */
  lemma OrderMatters<Row(!new)>(up: Updater<Row>, r: Row, a: Row, b: Row)
    requires up(up(r, a), b) != up(up(r, b), a)
    ensures !MayChangePlaces([r], AddTable(0, [0], [a]), AddTable(0, [0], [b]), up)
  {
    var p, q := AddTable(0, [0], [a]), AddTable(0, [0], [b]);
    assert FlatStep(FlatStep([r], p, up), q, up)[0] == up(up(r, a), b);
    assert FlatStep(FlatStep([r], q, up), p, up)[0] == up(up(r, b), a);
  }

  /** Commuting deltas are needed, too. */
  lemma OrderIsFreeExactly<Row(!new)>(up: Updater<Row>)
    ensures OrderIsFree(up) <==> Commutes(up)
  {
    if Commutes(up) {
      forall m: seq<Row>, p: Request<Row>, q: Request<Row> | Fits(p, |m|) && Fits(q, |m|)
        ensures MayChangePlaces(m, p, q, up)
      {
        StepsCommute(m, p, q, up);
      }
    } else {
      var r, a, b :| up(up(r, a), b) != up(up(r, b), a);
      OrderMatters(up, r, a, b);
    }
  }
}
