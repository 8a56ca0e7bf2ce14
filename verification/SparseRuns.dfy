/** Runs of the sparse matrix: adds, whole-table gets and deliveries of replies in any interleaving.
    Every worker's copy of the table stays coherent with the server's shard. */
module SparseRuns {
  import opened MatrixModel
  import opened MatrixTable
  import opened SparseMirror

  /** A reply on its way, and the shard as it was when the get was processed. */
  datatype Flight<Row> = Flight(reply: Reply<Row>, snapshot: seq<Row>)

  /** copies[w] is worker w's buffer for the whole table, flights[w] the replies that it still waits for. */
  datatype System<Row> = System(shard: Shard<Row>, copies: seq<seq<Row>>, flights: seq<seq<Flight<Row>>>)

  datatype Event<Row> =
    | Add(keys: seq<int>, rows: seq<Row>)
    | Get(worker: nat, anonymous: bool)
    | Deliver(worker: nat)

  // ---- a worker takes a reply ----

  /** The first k rows of a reply, written to the copy of the table. */
  function Written<Row>(copy: seq<Row>, reply: Reply<Row>, k: nat): (c: seq<Row>)
    requires k <= |reply.keys| == |reply.rows| && Within(reply.keys, 0, |copy|)
    ensures |c| == |copy|
  {
    if k == 0 then copy else Written(copy, reply, k - 1)[reply.keys[k - 1] := reply.rows[k - 1]]
  }

  /** Copies the rows of a reply into the user's buffer. In a whole-table get (the place of the whole
      table is set) every row gets its place first. ok is false if a check fails. */
  method ProcessReplyGet<Row>(worker: MatrixWorker<Row>, data: array<Row>, reply: Reply<Row>) returns (ok: bool)
    requires worker.Valid() && worker.getReplyCount > 0 && Within(reply.keys, 0, worker.numRow)
    requires -1 <= worker.rowIndex[worker.numRow] <= 0
    requires if worker.rowIndex[worker.numRow] == 0 then data.Length == worker.numRow
             else forall j :: 0 <= j < |reply.keys| ==> -1 <= worker.rowIndex[reply.keys[j]] < data.Length
    modifies worker, data
    ensures worker.Valid() && worker.rowIndex[worker.numRow] == old(worker.rowIndex[worker.numRow])
    ensures ok ==> worker.getReplyCount == old(worker.getReplyCount) - 1
    ensures old(worker.rowIndex[worker.numRow]) == 0 ==> ok == (|reply.rows| == |reply.keys|)
    ensures old(worker.rowIndex[worker.numRow]) == 0 && ok ==>
              data[..] == Written(old(data[..]), reply, |reply.keys|)
    ensures old(worker.rowIndex[worker.numRow]) == -1 ==>
              ok == (|reply.rows| == |reply.keys|
                     && forall j :: 0 <= j < |reply.keys| ==> old(worker.rowIndex)[reply.keys[j]] >= 0)
    ensures old(worker.rowIndex[worker.numRow]) == -1 && ok ==> forall p :: 0 <= p < data.Length ==>
              data[p] == Stored(old(worker.rowIndex), old(data[p]), reply.keys, reply.rows, p, |reply.keys|)
  {
    if worker.rowIndex[worker.numRow] != -1 {
      worker.rowIndex := PlaceRows(worker.rowIndex, reply.keys, worker.numRow);
    }
    ghost var before: seq<Row> := data[..];
    ok := CopyRows(data, worker.rowIndex, reply.keys, reply.rows);
    if ok {
      if worker.rowIndex[worker.numRow] == 0 {
        CopiedIsWritten(worker.rowIndex, before, data[..], reply);
      }
      worker.getReplyCount := worker.getReplyCount - 1;
    }
  }

  /** Every row of a reply goes to its place in the buffer for the whole table. */
  method PlaceRows(rowIndex: seq<int>, keys: seq<int>, numRow: nat) returns (r: seq<int>)
    requires |rowIndex| == numRow + 1 && rowIndex[numRow] == 0 && Within(keys, 0, numRow)
    ensures |r| == |rowIndex| && r[numRow] == 0
    ensures forall j :: 0 <= j < |keys| ==> r[keys[j]] == keys[j]
  {
    r := rowIndex;
    for i := 0 to |keys|
      invariant |r| == |rowIndex| && r[numRow] == 0
      invariant forall j :: 0 <= j < i ==> r[keys[j]] == keys[j]
    {
      r := r[keys[i] := r[numRow] + keys[i]];
    }
  }

  lemma {:induction false} StoredIsWritten<Row>(rowIndex: seq<int>, copy: seq<Row>, reply: Reply<Row>, p: nat, k: nat)
    requires k <= |reply.keys| == |reply.rows| && Within(reply.keys, 0, |copy|) && |rowIndex| == |copy| + 1
    requires p < |copy| && forall j :: 0 <= j < |reply.keys| ==> rowIndex[reply.keys[j]] == reply.keys[j]
    ensures Stored(rowIndex, copy[p], reply.keys, reply.rows, p, k) == Written(copy, reply, k)[p]
  {
    if k > 0 {
      StoredIsWritten(rowIndex, copy, reply, p, k - 1);
    }
  }

  lemma CopiedIsWritten<Row>(rowIndex: seq<int>, copy: seq<Row>, data: seq<Row>, reply: Reply<Row>)
    requires |reply.keys| == |reply.rows| && Within(reply.keys, 0, |copy|) && |rowIndex| == |copy| + 1
    requires forall j :: 0 <= j < |reply.keys| ==> rowIndex[reply.keys[j]] == reply.keys[j]
    requires |data| == |copy| && forall p :: 0 <= p < |copy| ==>
               data[p] == Stored(rowIndex, copy[p], reply.keys, reply.rows, p, |reply.keys|)
    ensures data == Written(copy, reply, |reply.keys|)
  {
    forall p: nat | p < |copy|
      ensures data[p] == Written(copy, reply, |reply.keys|)[p]
    {
      StoredIsWritten(rowIndex, copy, reply, p, |reply.keys|);
    }
  }

  /** A row of the copy is as the reply says if it is in the reply, and as before otherwise. */
  lemma {:induction false} WrittenAt<Row>(copy: seq<Row>, reply: Reply<Row>, base: nat, rows: seq<Row>, k: nat, r: nat)
    requires k <= |reply.keys| == |reply.rows| && base + |rows| <= |copy| && Within(reply.keys, base, base + |rows|)
    requires forall j :: 0 <= j < |reply.keys| ==> reply.rows[j] == rows[reply.keys[j] - base]
    requires r < |rows|
    ensures Written(copy, reply, k)[base + r] == if base + r in KeySet(reply.keys, k) then rows[r] else copy[base + r]
  {
    if k > 0 {
      WrittenAt(copy, reply, base, rows, k - 1, r);
    }
  }

  // ---- copies and replies under way ----

  ghost predicate ReplyFits<Row>(reply: Reply<Row>, numRow: nat)
  {
    |reply.keys| == |reply.rows| && Within(reply.keys, 0, numRow)
  }

  ghost predicate FlightsFit<Row>(flights: seq<Flight<Row>>, numRow: nat)
  {
    forall k :: 0 <= k < |flights| ==> ReplyFits(flights[k].reply, numRow)
  }

  /** The copy once the first k replies have been delivered. */
  ghost function Landed<Row>(copy: seq<Row>, flights: seq<Flight<Row>>, k: nat): (c: seq<Row>)
    requires k <= |flights| && FlightsFit(flights, |copy|)
    ensures |c| == |copy|
  {
    if k == 0 then copy
    else Written(Landed(copy, flights, k - 1), flights[k - 1].reply, |flights[k - 1].reply.keys|)
  }

  /** more is flights with last behind. */
  ghost predicate IsOneMore<Row>(flights: seq<Flight<Row>>, more: seq<Flight<Row>>, last: Flight<Row>)
  {
    && |more| == |flights| + 1 && more[|flights|] == last
    && forall k :: 0 <= k < |flights| ==> more[k] == flights[k]
  }

  lemma {:induction false} LandedPrefix<Row>(copy: seq<Row>, flights: seq<Flight<Row>>, more: seq<Flight<Row>>,
                                             last: Flight<Row>, k: nat)
    requires k <= |flights| && IsOneMore(flights, more, last) && FlightsFit(more, |copy|) && FlightsFit(flights, |copy|)
    ensures Landed(copy, more, k) == Landed(copy, flights, k)
  {
    if k > 0 {
      LandedPrefix(copy, flights, more, last, k - 1);
    }
  }

  lemma {:induction false} LandedShift<Row>(copy: seq<Row>, flights: seq<Flight<Row>>, k: nat)
    requires k < |flights| && FlightsFit(flights, |copy|)
    ensures FlightsFit(flights[1..], |copy|)
    ensures Landed(Landed(copy, flights, 1), flights[1..], k) == Landed(copy, flights, k + 1)
  {
    assert forall j :: 0 <= j < |flights| - 1 ==> flights[1..][j] == flights[j + 1];
    if k > 0 {
      LandedShift(copy, flights, k - 1);
    }
  }

  /** The shard's part of a copy. */
  ghost function Part<Row>(copy: seq<Row>, base: nat, n: nat): (p: seq<Row>)
    requires base + n <= |copy|
    ensures |p| == n
  {
    copy[base..base + n]
  }

  // ---- the invariant ----

  ghost predicate Shape<Row>(s: System<Row>, base: nat, numWorkers: nat, numRow: nat)
  {
    && IsShard(s.shard, numWorkers) && base + |s.shard.rows| <= numRow
    && |s.copies| == |s.flights| == numWorkers
    && forall w :: 0 <= w < numWorkers ==> |s.copies[w]| == numRow && FlightsFit(s.flights[w], numRow)
  }

  /** A set flag: once the replies under way are delivered, the copy's row is the stored one. */
  ghost predicate FlagOk<Row>(rows: seq<Row>, flags: seq<bool>, copy: seq<Row>, base: nat, r: nat)
    requires |flags| == |rows| && base + |rows| <= |copy| && r < |rows|
  {
    flags[r] ==> copy[base + r] == rows[r]
  }

  ghost predicate FlagsOk<Row>(rows: seq<Row>, flags: seq<bool>, copy: seq<Row>, base: nat)
    requires |flags| == |rows| && base + |rows| <= |copy|
  {
    forall r: nat :: r < |rows| ==> FlagOk(rows, flags, copy, base, r)
  }

  /** Delivering reply k makes the copy what the shard was when that get was processed. */
  ghost predicate FlightOk<Row>(copy: seq<Row>, flights: seq<Flight<Row>>, base: nat, n: nat, k: nat)
    requires k < |flights| && FlightsFit(flights, |copy|) && base + n <= |copy|
  {
    Part(Landed(copy, flights, k + 1), base, n) == flights[k].snapshot
  }

  ghost predicate WorkerOk<Row>(rows: seq<Row>, flags: seq<bool>, copy: seq<Row>, flights: seq<Flight<Row>>, base: nat)
    requires |flags| == |rows| && base + |rows| <= |copy| && FlightsFit(flights, |copy|)
  {
    && FlagsOk(rows, flags, Landed(copy, flights, |flights|), base)
    && forall k: nat :: k < |flights| ==> FlightOk(copy, flights, base, |rows|, k)
  }

  ghost predicate Inv<Row>(s: System<Row>, base: nat, numWorkers: nat, numRow: nat)
  {
    && Shape(s, base, numWorkers, numRow)
    && forall w: nat :: w < numWorkers ==>
         WorkerOk(s.shard.rows, s.shard.upToDate[w], s.copies[w], s.flights[w], base)
  }

  // ---- steps ----

  ghost predicate Possible<Row>(s: System<Row>, base: nat, numWorkers: nat, numRow: nat, e: Event<Row>)
  {
    && Shape(s, base, numWorkers, numRow)
    && match e
       case Add(keys, rows) => MayAdd(s.shard, base, keys, rows)
       case Get(w, _) => w < numWorkers
       case Deliver(w) => w < numWorkers && s.flights[w] != []
  }

  ghost function After<Row>(s: System<Row>, base: nat, numWorkers: nat, numRow: nat, e: Event<Row>,
                            up: Updater<Row>): System<Row>
    requires Possible(s, base, numWorkers, numRow, e)
  {
    match e
    case Add(keys, rows) => s.(shard := AfterAdd(s.shard, base, keys, rows, up))
    case Get(w, anonymous) =>
      var id := if anonymous then -1 else w;
      s.(shard := AfterGet(s.shard, id),
         flights := s.flights[w := s.flights[w] + [Flight(ReplyTo(s.shard, base, id), s.shard.rows)]])
    case Deliver(w) =>
      s.(copies := s.copies[w := Landed(s.copies[w], s.flights[w], 1)], flights := s.flights[w := s.flights[w][1..]])
  }

  lemma {:induction false} ClearedFlags(flags: seq<bool>, base: nat, keys: seq<int>, k: nat, r: nat)
    requires k <= |keys| && Within(keys, base, base + |flags|) && r < |flags|
    ensures Cleared(flags, base, keys, k)[r] == (flags[r] && base + r !in KeySet(keys, k))
  {
    if k > 0 {
      ClearedFlags(flags, base, keys, k - 1, r);
    }
  }

  lemma {:induction false} OtherRowsStay<Row>(m: seq<Row>, base: nat, keys: seq<int>, rows: seq<Row>,
                                              up: Updater<Row>, k: nat, r: nat)
    requires k <= |keys| == |rows| && Within(keys, base, base + |m|) && r < |m| && base + r !in KeySet(keys, k)
    ensures AddRows(m, base, keys, rows, up, k)[r] == m[r]
  {
    if k > 0 {
      OtherRowsStay(m, base, keys, rows, up, k - 1, r);
    }
  }

  /** An add clears the flags of exactly the rows it may change. */
  lemma AddKeepsFlags<Row>(s: Shard<Row>, base: nat, keys: seq<int>, rows: seq<Row>, up: Updater<Row>, w: nat,
                           copy: seq<Row>)
    requires IsShard(s, |s.upToDate|) && MayAdd(s, base, keys, rows) && w < |s.upToDate|
    requires base + |s.rows| <= |copy| && FlagsOk(s.rows, s.upToDate[w], copy, base)
    ensures var t := AfterAdd(s, base, keys, rows, up); FlagsOk(t.rows, t.upToDate[w], copy, base)
  {
    var t := AfterAdd(s, base, keys, rows, up);
    forall r: nat | r < |t.rows|
      ensures FlagOk(t.rows, t.upToDate[w], copy, base, r)
    {
      assert FlagOk(s.rows, s.upToDate[w], copy, base, r);
      if !IsWhole(keys) {
        ClearedFlags(s.upToDate[w], base, keys, |keys|, r);
        if t.upToDate[w][r] {
          OtherRowsStay(s.rows, base, keys, rows, up, |keys|, r);
        }
      }
    }
  }

  lemma {:induction false} OutdatedKeys(flags: seq<bool>, base: nat, k: nat, r: nat)
    requires k <= |flags| && r < k
    ensures var keys := Outdated(flags, base, k); base + r in KeySet(keys, |keys|) <==> !flags[r]
  {
    var keys := Outdated(flags, base, k);
    if r < k - 1 {
      OutdatedKeys(flags, base, k - 1, r);
    }
    var less := Outdated(flags, base, k - 1);
    if !flags[k - 1] {
      KeySetSnoc(less, base + k - 1);
    }
    if r == k - 1 && flags[r] {
      NotAmong(less, base + r);
    }
  }

  lemma NotAmong(keys: seq<int>, x: int)
    requires forall j :: 0 <= j < |keys| ==> keys[j] != x
    ensures x !in KeySet(keys, |keys|)
  {
    InKeySet(keys, |keys|, x);
  }

  lemma AllKeys(base: nat, n: nat, r: nat)
    requires r < n
    ensures base + r in KeySet(AllRows(base, n), n)
  {
    assert AllRows(base, n)[r] == base + r;
    InKeySet(AllRows(base, n), n, base + r);
  }

  /** A row that a get does not send is up to date. */
  lemma UnsentIsUpToDate<Row>(s: Shard<Row>, base: nat, worker: int, r: nat)
    requires IsShard(s, |s.upToDate|) && -1 <= worker < |s.upToDate| && r < |s.rows|
    ensures var keys := SentKeys(s, base, worker);
            base + r in KeySet(keys, |keys|) || (worker >= 0 && s.upToDate[worker][r])
  {
    if worker == -1 {
      AllKeys(base, |s.rows|, r);
    } else {
      OutdatedKeys(s.upToDate[worker], base, |s.rows|, r);
    }
  }

  lemma UnsentIsCurrent<Row>(s: Shard<Row>, base: nat, worker: int, copy: seq<Row>, r: nat)
    requires IsShard(s, |s.upToDate|) && -1 <= worker < |s.upToDate| && base + |s.rows| <= |copy| && r < |s.rows|
    requires worker >= 0 ==> FlagOk(s.rows, s.upToDate[worker], copy, base, r)
    ensures SentOrCurrent(copy, ReplyTo(s, base, worker), base, s.rows, r)
  {
    UnsentIsUpToDate(s, base, worker, r);
  }

  /** A reply that carries current rows, and leaves out only rows that are current, completes a copy. */
  lemma CurrentRowsComplete<Row>(copy: seq<Row>, reply: Reply<Row>, base: nat, rows: seq<Row>)
    requires IsCurrent(reply, base, rows) && base + |rows| <= |copy|
    requires forall r: nat :: r < |rows| ==> SentOrCurrent(copy, reply, base, rows, r)
    ensures Part(Written(copy, reply, |reply.keys|), base, |rows|) == rows
  {
    forall r: nat | r < |rows|
      ensures Written(copy, reply, |reply.keys|)[base + r] == rows[r]
    {
      WrittenAt(copy, reply, base, rows, |reply.keys|, r);
      assert SentOrCurrent(copy, reply, base, rows, r);
    }
  }

  ghost predicate IsCurrent<Row>(reply: Reply<Row>, base: nat, rows: seq<Row>)
  {
    && |reply.keys| == |reply.rows| && Within(reply.keys, base, base + |rows|)
    && forall j :: 0 <= j < |reply.keys| ==> reply.rows[j] == rows[reply.keys[j] - base]
  }

  lemma ReplyIsCurrent<Row>(s: Shard<Row>, base: nat, worker: int)
    requires IsShard(s, |s.upToDate|) && -1 <= worker < |s.upToDate|
    ensures IsCurrent(ReplyTo(s, base, worker), base, s.rows)
  {
  }

  lemma CurrentFits<Row>(reply: Reply<Row>, base: nat, rows: seq<Row>, numRow: nat)
    requires IsCurrent(reply, base, rows) && base + |rows| <= numRow
    ensures ReplyFits(reply, numRow)
  {
  }

  ghost predicate SentOrCurrent<Row>(copy: seq<Row>, reply: Reply<Row>, base: nat, rows: seq<Row>, r: nat)
    requires r < |rows| && base + |rows| <= |copy|
  {
    base + r in KeySet(reply.keys, |reply.keys|) || copy[base + r] == rows[r]
  }

  /** Whatever is up to date before: with the reply written, the copy is the shard. */
  lemma ReplyCompletes<Row>(s: Shard<Row>, base: nat, worker: int, copy: seq<Row>)
    requires IsShard(s, |s.upToDate|) && -1 <= worker < |s.upToDate| && base + |s.rows| <= |copy|
    requires worker >= 0 ==> FlagsOk(s.rows, s.upToDate[worker], copy, base)
    ensures var reply := ReplyTo(s, base, worker);
            ReplyFits(reply, |copy|) && Part(Written(copy, reply, |reply.keys|), base, |s.rows|) == s.rows
  {
    var reply := ReplyTo(s, base, worker);
    ReplyIsCurrent(s, base, worker);
    CurrentFits(reply, base, s.rows, |copy|);
    forall r: nat | r < |s.rows|
      ensures SentOrCurrent(copy, reply, base, s.rows, r)
    {
      assert worker >= 0 ==> FlagOk(s.rows, s.upToDate[worker], copy, base, r);
      UnsentIsCurrent(s, base, worker, copy, r);
    }
    CurrentRowsComplete(copy, reply, base, s.rows);
  }

  lemma EarlierFlightsStay<Row>(copy: seq<Row>, flights: seq<Flight<Row>>, more: seq<Flight<Row>>,
                                last: Flight<Row>, base: nat, n: nat, k: nat)
    requires k < |flights| && IsOneMore(flights, more, last) && FlightsFit(more, |copy|) && base + n <= |copy|
    requires FlightsFit(flights, |copy|) && FlightOk(copy, flights, base, n, k)
    ensures FlightOk(copy, more, base, n, k)
  {
    LandedPrefix(copy, flights, more, last, k + 1);
  }

  lemma LastFlightLands<Row>(copy: seq<Row>, flights: seq<Flight<Row>>, more: seq<Flight<Row>>, last: Flight<Row>)
    requires IsOneMore(flights, more, last) && FlightsFit(more, |copy|) && FlightsFit(flights, |copy|)
    requires ReplyFits(last.reply, |copy|)
    ensures Landed(copy, more, |more|)
         == Written(Landed(copy, flights, |flights|), last.reply, |last.reply.keys|)
  {
    LandedPrefix(copy, flights, more, last, |flights|);
  }

  lemma MoreFlightsOk<Row>(rows: seq<Row>, flags: seq<bool>, copy: seq<Row>, flights: seq<Flight<Row>>,
                           more: seq<Flight<Row>>, last: Flight<Row>, base: nat)
    requires IsOneMore(flights, more, last) && FlightsFit(more, |copy|) && FlightsFit(flights, |copy|)
    requires last.snapshot == rows && base + |rows| <= |copy| && |flags| == |rows|
    requires Part(Landed(copy, more, |more|), base, |rows|) == rows
    requires forall k: nat :: k < |flights| ==> FlightOk(copy, flights, base, |rows|, k)
    ensures WorkerOk(rows, flags, copy, more, base)
  {
    CurrentMeansFlagsOk(rows, flags, Landed(copy, more, |more|), base);
    forall k: nat | k < |more|
      ensures FlightOk(copy, more, base, |rows|, k)
    {
      if k < |flights| {
        EarlierFlightsStay(copy, flights, more, last, base, |rows|, k);
      }
    }
  }

  lemma CurrentMeansFlagsOk<Row>(rows: seq<Row>, flags: seq<bool>, copy: seq<Row>, base: nat)
    requires |flags| == |rows| && base + |rows| <= |copy| && Part(copy, base, |rows|) == rows
    ensures FlagsOk(rows, flags, copy, base)
  {
    forall r: nat | r < |rows|
      ensures FlagOk(rows, flags, copy, base, r)
    {
      assert Part(copy, base, |rows|)[r] == copy[base + r];
    }
  }

  lemma GetKeepsWorker<Row>(s: Shard<Row>, base: nat, worker: int, flags: seq<bool>, copy: seq<Row>,
                            flights: seq<Flight<Row>>)
    requires IsShard(s, |s.upToDate|) && -1 <= worker < |s.upToDate| && base + |s.rows| <= |copy| && |flags| == |s.rows|
    requires FlightsFit(flights, |copy|)
    requires worker >= 0 ==> WorkerOk(s.rows, s.upToDate[worker], copy, flights, base)
    requires forall k: nat :: k < |flights| ==> FlightOk(copy, flights, base, |s.rows|, k)
    ensures var flights' := flights + [Flight(ReplyTo(s, base, worker), s.rows)];
            FlightsFit(flights', |copy|) && WorkerOk(s.rows, flags, copy, flights', base)
  {
    var last := Flight(ReplyTo(s, base, worker), s.rows);
    ReplyCompletes(s, base, worker, Landed(copy, flights, |flights|));
    LastFlightLands(copy, flights, flights + [last], last);
    MoreFlightsOk(s.rows, flags, copy, flights, flights + [last], last, base);
  }

  lemma DeliverKeepsWorker<Row>(rows: seq<Row>, flags: seq<bool>, copy: seq<Row>, flights: seq<Flight<Row>>, base: nat)
    requires |flags| == |rows| && base + |rows| <= |copy| && FlightsFit(flights, |copy|) && flights != []
    requires WorkerOk(rows, flags, copy, flights, base)
    ensures FlightsFit(flights[1..], |copy|)
    ensures WorkerOk(rows, flags, Landed(copy, flights, 1), flights[1..], base)
    ensures Part(Landed(copy, flights, 1), base, |rows|) == flights[0].snapshot
  {
    LandedShift(copy, flights, |flights| - 1);
    assert FlightOk(copy, flights, base, |rows|, 0);
    forall k: nat | k < |flights| - 1
      ensures FlightOk(Landed(copy, flights, 1), flights[1..], base, |rows|, k)
    {
      LaterFlightStays(copy, flights, base, |rows|, k);
    }
  }

  lemma LaterFlightStays<Row>(copy: seq<Row>, flights: seq<Flight<Row>>, base: nat, n: nat, k: nat)
    requires k + 1 < |flights| && FlightsFit(flights, |copy|) && base + n <= |copy|
    requires FlightOk(copy, flights, base, n, k + 1)
    ensures FlightsFit(flights[1..], |copy|) && FlightOk(Landed(copy, flights, 1), flights[1..], base, n, k)
  {
    LandedShift(copy, flights, k + 1);
  }

  lemma EventKeeps<Row>(s: System<Row>, base: nat, numWorkers: nat, numRow: nat, e: Event<Row>, up: Updater<Row>)
    requires Inv(s, base, numWorkers, numRow) && Possible(s, base, numWorkers, numRow, e)
    ensures Inv(After(s, base, numWorkers, numRow, e, up), base, numWorkers, numRow)
  {
    match e
    case Add(keys, rows) => AddKeeps(s, base, numWorkers, numRow, keys, rows, up);
    case Get(w, anonymous) => GetKeeps(s, base, numWorkers, numRow, w, anonymous, up);
    case Deliver(w) => DeliverKeeps(s, base, numWorkers, numRow, w, up);
  }

  lemma AddKeeps<Row>(s: System<Row>, base: nat, numWorkers: nat, numRow: nat, keys: seq<int>, rows: seq<Row>,
                      up: Updater<Row>)
    requires Inv(s, base, numWorkers, numRow) && MayAdd(s.shard, base, keys, rows)
    ensures Inv(After(s, base, numWorkers, numRow, Add(keys, rows), up), base, numWorkers, numRow)
  {
    var t := AfterAdd(s.shard, base, keys, rows, up);
    forall w: nat | w < numWorkers
      ensures WorkerOk(t.rows, t.upToDate[w], s.copies[w], s.flights[w], base)
    {
      assert WorkerOk(s.shard.rows, s.shard.upToDate[w], s.copies[w], s.flights[w], base);
      AddKeepsFlags(s.shard, base, keys, rows, up, w, Landed(s.copies[w], s.flights[w], |s.flights[w]|));
    }
  }

  lemma GetKeeps<Row>(s: System<Row>, base: nat, numWorkers: nat, numRow: nat, w: nat, anonymous: bool,
                      up: Updater<Row>)
    requires Inv(s, base, numWorkers, numRow) && w < numWorkers
    ensures Inv(After(s, base, numWorkers, numRow, Get(w, anonymous), up), base, numWorkers, numRow)
  {
    var t := After(s, base, numWorkers, numRow, Get(w, anonymous), up);
    assert WorkerOk(s.shard.rows, s.shard.upToDate[w], s.copies[w], s.flights[w], base);
    GetKeepsWorker(s.shard, base, if anonymous then -1 else w, t.shard.upToDate[w], s.copies[w], s.flights[w]);
    forall v: nat | v < numWorkers
      ensures FlightsFit(t.flights[v], numRow)
      ensures WorkerOk(t.shard.rows, t.shard.upToDate[v], t.copies[v], t.flights[v], base)
    {
      assert WorkerOk(s.shard.rows, s.shard.upToDate[v], s.copies[v], s.flights[v], base);
    }
  }

  lemma DeliverKeeps<Row>(s: System<Row>, base: nat, numWorkers: nat, numRow: nat, w: nat, up: Updater<Row>)
    requires Inv(s, base, numWorkers, numRow) && w < numWorkers && s.flights[w] != []
    ensures Inv(After(s, base, numWorkers, numRow, Deliver(w), up), base, numWorkers, numRow)
    ensures Part(After(s, base, numWorkers, numRow, Deliver(w), up).copies[w], base, |s.shard.rows|)
         == s.flights[w][0].snapshot
  {
    var t := After(s, base, numWorkers, numRow, Deliver(w), up);
    assert WorkerOk(s.shard.rows, s.shard.upToDate[w], s.copies[w], s.flights[w], base);
    DeliverKeepsWorker(s.shard.rows, s.shard.upToDate[w], s.copies[w], s.flights[w], base);
    forall v: nat | v < numWorkers
      ensures FlightsFit(t.flights[v], numRow) && |t.copies[v]| == numRow
      ensures WorkerOk(t.shard.rows, t.shard.upToDate[v], t.copies[v], t.flights[v], base)
    {
      assert WorkerOk(s.shard.rows, s.shard.upToDate[v], s.copies[v], s.flights[v], base);
    }
  }

  // ---- listed rows into another buffer ----

  /** A get of listed rows that go elsewhere leaves the flags right for the worker's copy of the table
      exactly if the copy's listed rows are current already. */
  lemma ListedGetElsewhere<Row>(s: Shard<Row>, base: nat, worker: nat, asked: seq<int>, copy: seq<Row>)
    requires IsShard(s, |s.upToDate|) && worker < |s.upToDate|
    requires !IsWhole(asked) && Within(asked, base, base + |s.rows|)
    requires base + |s.rows| <= |copy| && FlagsOk(s.rows, s.upToDate[worker], copy, base)
    ensures FlagsOk(s.rows, AfterAnyGet(s, base, worker, asked).upToDate[worker], copy, base)
       <==> forall j :: 0 <= j < |asked| ==> copy[asked[j]] == s.rows[asked[j] - base]
  {
    var flags := s.upToDate[worker];
    var marked := Marked(flags, base, asked, |asked|);
    assert AfterAnyGet(s, base, worker, asked).upToDate[worker] == marked;
    if FlagsOk(s.rows, marked, copy, base) {
      forall j: nat | j < |asked|
        ensures copy[asked[j]] == s.rows[asked[j] - base]
      {
        InKeySet(asked, |asked|, asked[j]);
        MarkedAt(flags, base, asked, |asked|, asked[j] - base);
        assert FlagOk(s.rows, marked, copy, base, asked[j] - base);
      }
    }
    if forall j :: 0 <= j < |asked| ==> copy[asked[j]] == s.rows[asked[j] - base] {
      forall r: nat | r < |s.rows|
        ensures FlagOk(s.rows, marked, copy, base, r)
      {
        InKeySet(asked, |asked|, base + r);
        MarkedAt(flags, base, asked, |asked|, r);
        assert FlagOk(s.rows, flags, copy, base, r);
      }
    }
  }

  /** Whatever copy of the table a worker has: if its flags are right before, they are right after. */
  ghost predicate StayRight<Row(!new)>(rows: seq<Row>, before: seq<bool>, after: seq<bool>, base: nat, numRow: nat)
    requires |before| == |after| == |rows| && base + |rows| <= numRow
  {
    forall copy: seq<Row> | |copy| == numRow && FlagsOk(rows, before, copy, base) :: FlagsOk(rows, after, copy, base)
  }

  /** A copy whose flags are right although row r, which no flag vouches for, is not the stored one. */
  lemma StaleCopy<Row>(rows: seq<Row>, flags: seq<bool>, base: nat, numRow: nat, r: nat, a: Row, b: Row)
    returns (copy: seq<Row>)
    requires |flags| == |rows| && base + |rows| <= numRow && r < |rows| && !flags[r] && a != b
    ensures |copy| == numRow && FlagsOk(rows, flags, copy, base) && copy[base + r] != rows[r]
  {
    copy := seq(numRow, p requires 0 <= p < numRow =>
                  if p == base + r then (if rows[r] == a then b else a)
                  else if base <= p < base + |rows| then rows[p - base] else a);
    forall q: nat | q < |rows|
      ensures FlagOk(rows, flags, copy, base, q)
    {
    }
  }

  /** A get of listed rows into another buffer is harmless exactly if the server has none of them to send.
      a and b are any two different rows. */
  lemma ListedGetIsHarmless<Row(!new)>(s: Shard<Row>, base: nat, worker: nat, asked: seq<int>, numRow: nat,
                                       a: Row, b: Row)
    requires IsShard(s, |s.upToDate|) && worker < |s.upToDate| && a != b
    requires !IsWhole(asked) && Within(asked, base, base + |s.rows|) && base + |s.rows| <= numRow
    ensures StayRight(s.rows, s.upToDate[worker], AfterAnyGet(s, base, worker, asked).upToDate[worker], base, numRow)
       <==> !SomeOutdated(s.upToDate[worker], base, asked)
  {
    var flags := s.upToDate[worker];
    if SomeOutdated(flags, base, asked) {
      var j :| 0 <= j < |asked| && !flags[asked[j] - base];
      var copy := StaleCopy(s.rows, flags, base, numRow, asked[j] - base, a, b);
      ListedGetElsewhere(s, base, worker, asked, copy);
    } else {
      forall copy: seq<Row> | |copy| == numRow && FlagsOk(s.rows, flags, copy, base)
        ensures FlagsOk(s.rows, AfterAnyGet(s, base, worker, asked).upToDate[worker], copy, base)
      {
        ListedGetElsewhere(s, base, worker, asked, copy);
        CurrentIfFlagged(s.rows, flags, base, asked, copy);
      }
    }
  }

  lemma CurrentIfFlagged<Row>(rows: seq<Row>, flags: seq<bool>, base: nat, asked: seq<int>, copy: seq<Row>)
    requires |flags| == |rows| && base + |rows| <= |copy| && Within(asked, base, base + |rows|)
    requires FlagsOk(rows, flags, copy, base) && !SomeOutdated(flags, base, asked)
    ensures forall j :: 0 <= j < |asked| ==> copy[asked[j]] == rows[asked[j] - base]
  {
    forall j: nat | j < |asked|
      ensures copy[asked[j]] == rows[asked[j] - base]
    {
      assert FlagOk(rows, flags, copy, base, asked[j] - base);
    }
  }

  // ---- runs ----

  /** No flag is set and nothing is under way; the copies may hold anything. */
  ghost predicate IsStart<Row>(s: System<Row>, base: nat, numWorkers: nat, numRow: nat)
  {
    && Shape(s, base, numWorkers, numRow)
    && forall w :: 0 <= w < numWorkers ==>
         s.flights[w] == [] && forall r :: 0 <= r < |s.shard.rows| ==> !s.shard.upToDate[w][r]
  }

  ghost predicate Leads<Row(!new)>(s: System<Row>, base: nat, numWorkers: nat, numRow: nat, up: Updater<Row>,
                                   t: System<Row>)
  {
    exists e :: Possible(s, base, numWorkers, numRow, e) && t == After(s, base, numWorkers, numRow, e, up)
  }

  ghost predicate IsRun<Row(!new)>(runs: seq<System<Row>>, base: nat, numWorkers: nat, numRow: nat, up: Updater<Row>)
  {
    && runs != [] && IsStart(runs[0], base, numWorkers, numRow)
    && forall i :: 0 < i < |runs| ==> Leads(runs[i - 1], base, numWorkers, numRow, up, runs[i])
  }

  lemma {:induction false} RunsKeepInvariant<Row(!new)>(runs: seq<System<Row>>, base: nat, numWorkers: nat, numRow: nat,
                                                  up: Updater<Row>, i: nat)
    requires IsRun(runs, base, numWorkers, numRow, up) && i < |runs|
    ensures Inv(runs[i], base, numWorkers, numRow)
  {
    if i > 0 {
      RunsKeepInvariant(runs, base, numWorkers, numRow, up, i - 1);
      var s := runs[i - 1];
      var e :| Possible(s, base, numWorkers, numRow, e) && runs[i] == After(s, base, numWorkers, numRow, e, up);
      EventKeeps(s, base, numWorkers, numRow, e, up);
    }
  }

  /** In every run: a set flag means that the copy's row, once the replies under way are delivered, is
      the stored row. */
  lemma FlagsMeanCurrent<Row(!new)>(runs: seq<System<Row>>, base: nat, numWorkers: nat, numRow: nat, up: Updater<Row>,
                              i: nat, w: nat, r: nat)
    requires IsRun(runs, base, numWorkers, numRow, up) && i < |runs| && w < numWorkers
    ensures Shape(runs[i], base, numWorkers, numRow)
    ensures var s := runs[i]; r < |s.shard.rows| && s.shard.upToDate[w][r] ==>
              Landed(s.copies[w], s.flights[w], |s.flights[w]|)[base + r] == s.shard.rows[r]
  {
    RunsKeepInvariant(runs, base, numWorkers, numRow, up, i);
    var s := runs[i];
    assert WorkerOk(s.shard.rows, s.shard.upToDate[w], s.copies[w], s.flights[w], base);
    assert r < |s.shard.rows| ==>
             FlagOk(s.shard.rows, s.shard.upToDate[w], Landed(s.copies[w], s.flights[w], |s.flights[w]|), base, r);
  }

  /** In every run: when a reply is delivered, the copy becomes the shard as it was when that get was
      processed. */
  lemma GetsSeeTheShard<Row(!new)>(runs: seq<System<Row>>, base: nat, numWorkers: nat, numRow: nat,
                                   up: Updater<Row>, i: nat, w: nat)
    requires IsRun(runs, base, numWorkers, numRow, up) && i < |runs|
    requires Possible(runs[i], base, numWorkers, numRow, Deliver(w))
    ensures Part(After(runs[i], base, numWorkers, numRow, Deliver(w), up).copies[w], base, |runs[i].shard.rows|)
         == runs[i].flights[w][0].snapshot
  {
    RunsKeepInvariant(runs, base, numWorkers, numRow, up, i);
    DeliverKeeps(runs[i], base, numWorkers, numRow, w, up);
  }

  // ---- what the events of a run have done ----

  /** The run in which these events happen. */
  ghost predicate IsTrace<Row(!new)>(runs: seq<System<Row>>, events: seq<Event<Row>>, base: nat, numWorkers: nat,
                                     numRow: nat, up: Updater<Row>)
  {
    && |runs| == |events| + 1 && IsStart(runs[0], base, numWorkers, numRow)
    && forall t: nat :: t < |events| ==> Happens(runs, events, base, numWorkers, numRow, up, t)
  }

  ghost predicate Happens<Row(!new)>(runs: seq<System<Row>>, events: seq<Event<Row>>, base: nat, numWorkers: nat,
                                     numRow: nat, up: Updater<Row>, t: nat)
    requires t < |events| && t + 1 < |runs|
  {
    && Possible(runs[t], base, numWorkers, numRow, events[t])
    && runs[t + 1] == After(runs[t], base, numWorkers, numRow, events[t], up)
  }

  lemma LastStep<Row(!new)>(runs: seq<System<Row>>, base: nat, numWorkers: nat, numRow: nat, up: Updater<Row>)
    requires IsRun(runs, base, numWorkers, numRow, up) && |runs| > 1
    ensures IsRun(runs[..|runs| - 1], base, numWorkers, numRow, up)
    ensures Leads(runs[|runs| - 2], base, numWorkers, numRow, up, runs[|runs| - 1])
  {
    var less := runs[..|runs| - 1];
    forall i | 0 < i < |less|
      ensures Leads(less[i - 1], base, numWorkers, numRow, up, less[i])
    {
      assert Leads(runs[i - 1], base, numWorkers, numRow, up, runs[i]);
    }
    assert Leads(runs[|runs| - 1 - 1], base, numWorkers, numRow, up, runs[|runs| - 1]);
  }

  /** Every run is the run of some events. */
  lemma {:induction false} RunHasTrace<Row(!new)>(runs: seq<System<Row>>, base: nat, numWorkers: nat, numRow: nat,
                                                  up: Updater<Row>) returns (events: seq<Event<Row>>)
    requires IsRun(runs, base, numWorkers, numRow, up)
    ensures IsTrace(runs, events, base, numWorkers, numRow, up)
  {
    if |runs| == 1 {
      events := [];
    } else {
      LastStep(runs, base, numWorkers, numRow, up);
      var less := runs[..|runs| - 1];
      var before := RunHasTrace(less, base, numWorkers, numRow, up);
      var e :| Possible(runs[|runs| - 2], base, numWorkers, numRow, e)
               && runs[|runs| - 1] == After(runs[|runs| - 2], base, numWorkers, numRow, e, up);
      events := before + [e];
      TraceOneMore(runs, before, e, base, numWorkers, numRow, up);
    }
  }

  lemma TraceOneMore<Row(!new)>(runs: seq<System<Row>>, before: seq<Event<Row>>, e: Event<Row>, base: nat,
                                numWorkers: nat, numRow: nat, up: Updater<Row>)
    requires |runs| > 1 && IsTrace(runs[..|runs| - 1], before, base, numWorkers, numRow, up)
    requires Possible(runs[|runs| - 2], base, numWorkers, numRow, e)
    requires runs[|runs| - 1] == After(runs[|runs| - 2], base, numWorkers, numRow, e, up)
    ensures IsTrace(runs, before + [e], base, numWorkers, numRow, up)
  {
    forall t: nat | t < |before| + 1
      ensures Happens(runs, before + [e], base, numWorkers, numRow, up, t)
    {
      assert t < |before| ==> Happens(runs[..|runs| - 1], before, base, numWorkers, numRow, up, t);
    }
  }

  /** What one event makes of the stored rows. */
  ghost function RowsAfter<Row>(m: seq<Row>, base: nat, e: Event<Row>, up: Updater<Row>): (m': seq<Row>)
    ensures |m'| == |m|
  {
    if e.Add? && e.keys == [-1] && |e.rows| == |m| then AddAll(m, e.rows, up)
    else if e.Add? && |e.rows| == |e.keys| && Within(e.keys, base, base + |m|) then
      AddRows(m, base, e.keys, e.rows, up, |e.keys|)
    else m
  }

  /** The adds among the first k events, applied one after the other. */
  ghost function AllAdds<Row>(m: seq<Row>, base: nat, events: seq<Event<Row>>, up: Updater<Row>, k: nat): (m': seq<Row>)
    requires k <= |events|
    ensures |m'| == |m|
  {
    if k == 0 then m else RowsAfter(AllAdds(m, base, events, up, k - 1), base, events[k - 1], up)
  }

  lemma StepAdds<Row>(s: System<Row>, base: nat, numWorkers: nat, numRow: nat, e: Event<Row>, up: Updater<Row>)
    requires Possible(s, base, numWorkers, numRow, e)
    ensures After(s, base, numWorkers, numRow, e, up).shard.rows == RowsAfter(s.shard.rows, base, e, up)
  {
  }

  /** In every run the server stores all adds so far, and nothing else. */
  lemma {:induction false} ShardIsAllAdds<Row(!new)>(runs: seq<System<Row>>, events: seq<Event<Row>>, base: nat,
                                                     numWorkers: nat, numRow: nat, up: Updater<Row>, k: nat)
    requires IsTrace(runs, events, base, numWorkers, numRow, up) && k <= |events|
    ensures runs[k].shard.rows == AllAdds(runs[0].shard.rows, base, events, up, k)
  {
    if k > 0 {
      ShardIsAllAdds(runs, events, base, numWorkers, numRow, up, k - 1);
      assert Happens(runs, events, base, numWorkers, numRow, up, k - 1);
      StepAdds(runs[k - 1], base, numWorkers, numRow, events[k - 1], up);
    }
  }

  // ---- what the flags say about the events ----

  ghost predicate Touches<Row>(e: Event<Row>, base: nat, r: nat)
  {
    e.Add? && (e.keys == [-1] || base + r in e.keys)
  }

  /** Among the first k events worker w has got the table, under its number, and row r has not been added to
      since. */
  ghost predicate SentSince<Row>(events: seq<Event<Row>>, base: nat, w: nat, r: nat, k: nat)
  {
    exists g: nat :: g < k && GotAt(events, base, w, r, g, k)
  }

  ghost predicate GotAt<Row>(events: seq<Event<Row>>, base: nat, w: nat, r: nat, g: nat, k: nat)
  {
    && g < k <= |events| && events[g] == Get(w, false)
    && forall a: nat :: g < a < k ==> !Touches(events[a], base, r)
  }

  lemma SentSinceStep<Row>(events: seq<Event<Row>>, base: nat, w: nat, r: nat, k: nat)
    requires k < |events|
    ensures SentSince(events, base, w, r, k + 1) <==>
            events[k] == Get(w, false) || (SentSince(events, base, w, r, k) && !Touches(events[k], base, r))
  {
    if events[k] == Get(w, false) {
      assert GotAt(events, base, w, r, k, k + 1);
    }
    if SentSince(events, base, w, r, k) && !Touches(events[k], base, r) {
      var g: nat :| g < k && GotAt(events, base, w, r, g, k);
      assert GotAt(events, base, w, r, g, k + 1);
    }
    if SentSince(events, base, w, r, k + 1) {
      var g: nat :| g < k + 1 && GotAt(events, base, w, r, g, k + 1);
      assert g < k ==> GotAt(events, base, w, r, g, k) && !Touches(events[k], base, r);
    }
  }

  lemma StepFlags<Row>(s: System<Row>, base: nat, numWorkers: nat, numRow: nat, e: Event<Row>, up: Updater<Row>,
                       w: nat, r: nat)
    requires Possible(s, base, numWorkers, numRow, e) && w < numWorkers && r < |s.shard.rows|
    ensures Shape(s, base, numWorkers, numRow)
    ensures var t := After(s, base, numWorkers, numRow, e, up);
            w < |t.shard.upToDate| && r < |t.shard.upToDate[w]|
            && (t.shard.upToDate[w][r] <==> e == Get(w, false) || (s.shard.upToDate[w][r] && !Touches(e, base, r)))
  {
    if e.Add? {
      ClearedExactly(s.shard.upToDate[w], base, e.keys);
    }
  }

  /** In every run a flag is set exactly if the worker has been sent the row since it last changed. */
  lemma {:induction false} FlagsAreExact<Row(!new)>(runs: seq<System<Row>>, events: seq<Event<Row>>, base: nat,
                                                    numWorkers: nat, numRow: nat, up: Updater<Row>, k: nat,
                                                    w: nat, r: nat)
    requires IsTrace(runs, events, base, numWorkers, numRow, up) && k <= |events|
    requires w < numWorkers && r < |runs[0].shard.rows|
    ensures |runs[k].shard.rows| == |runs[0].shard.rows| && IsShard(runs[k].shard, numWorkers)
    ensures runs[k].shard.upToDate[w][r] <==> SentSince(events, base, w, r, k)
  {
    if k > 0 {
      FlagsAreExact(runs, events, base, numWorkers, numRow, up, k - 1, w, r);
      assert Happens(runs, events, base, numWorkers, numRow, up, k - 1);
      StepFlags(runs[k - 1], base, numWorkers, numRow, events[k - 1], up, w, r);
      SentSinceStep(events, base, w, r, k - 1);
      StepAdds(runs[k - 1], base, numWorkers, numRow, events[k - 1], up);
    }
  }

  /** Of a whole-table get. */
  lemma SentKeysExactly<Row>(s: Shard<Row>, base: nat, w: nat, sent: seq<int>)
    requires IsShard(s, |s.upToDate|) && w < |s.upToDate| && sent == ReplyTo(s, base, w).keys
    ensures AnswersGet(s.upToDate[w], base, [-1], sent)
  {
    WholeGetIsAnswered(s.upToDate[w], base);
  }

  /** Row x has changed, or has never been sent, since worker w's last get. */
  ghost predicate IsNews<Row>(events: seq<Event<Row>>, base: nat, n: nat, w: nat, k: nat, x: int)
  {
    base <= x < base + n && !SentSince(events, base, w, x - base, k)
  }

  /** In every run a get of the whole table sends exactly the rows that the worker has not been sent since
      they last changed, or the first row if there are none. */
  lemma GetSendsChanges<Row(!new)>(runs: seq<System<Row>>, events: seq<Event<Row>>, base: nat,
                                   numWorkers: nat, numRow: nat, up: Updater<Row>, k: nat, w: nat)
    requires IsTrace(runs, events, base, numWorkers, numRow, up) && k <= |events| && w < numWorkers
    ensures IsShard(runs[k].shard, numWorkers)
    ensures var sent, n := ReplyTo(runs[k].shard, base, w).keys, |runs[k].shard.rows|;
            if exists x :: IsNews(events, base, n, w, k, x) then
              Ascending(sent) && forall x :: x in sent <==> IsNews(events, base, n, w, k, x)
            else sent == [base]
  {
    FlagsAreExact(runs, events, base, numWorkers, numRow, up, k, w, 0);
    var flags, n := runs[k].shard.upToDate[w], |runs[k].shard.rows|;
    forall x: int | true
      ensures Wanted(flags, base, [-1], x) <==> IsNews(events, base, n, w, k, x)
    {
      if base <= x < base + n {
        FlagsAreExact(runs, events, base, numWorkers, numRow, up, k, w, x - base);
      }
    }
    NewsAreSent(runs[k].shard, events, base, w, k);
  }

  lemma NewsAreSent<Row>(s: Shard<Row>, events: seq<Event<Row>>, base: nat, w: nat, k: nat)
    requires IsShard(s, |s.upToDate|) && w < |s.upToDate|
    requires forall x :: Wanted(s.upToDate[w], base, [-1], x) <==> IsNews(events, base, |s.rows|, w, k, x)
    ensures var sent := ReplyTo(s, base, w).keys;
            if exists x :: IsNews(events, base, |s.rows|, w, k, x) then
              Ascending(sent) && forall x :: x in sent <==> IsNews(events, base, |s.rows|, w, k, x)
            else sent == [base]
  {
    var sent := ReplyTo(s, base, w).keys;
    SentKeysExactly(s, base, w, sent);
    if exists x :: IsNews(events, base, |s.rows|, w, k, x) {
      var x :| IsNews(events, base, |s.rows|, w, k, x);
      assert Wanted(s.upToDate[w], base, [-1], x);
    }
  }
}
