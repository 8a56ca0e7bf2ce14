/** Runs of the whole sparse table: several servers, each with its own shard, and workers that get the
    whole table from all of them at once. */
module SparseCluster {
  import opened Sums
  import opened RowRanges
  import opened MatrixModel
  import opened SparseMirror
  import SparseRuns
  import ShardedMatrix

  type Flight<Row> = SparseRuns.Flight<Row>

  /** flights[i][w] are the replies of server i on their way to worker w, requested[w] the servers that
      have not processed worker w's get yet. */
  datatype Cluster<Row> = Cluster(shards: seq<Shard<Row>>, copies: seq<seq<Row>>,
                                  flights: seq<seq<seq<Flight<Row>>>>, requested: seq<set<nat>>)

  datatype Step<Row> =
    | AddAt(server: nat, keys: seq<int>, rows: seq<Row>)
    | Ask(worker: nat)
    | Serve(server: nat, worker: nat, anonymous: bool)
    | Deliver(server: nat, worker: nat)

  /** What the table is made of. */
  datatype Config = Config(offsets: seq<nat>, numWorkers: nat, numRow: nat)

  ghost predicate IsConfig(g: Config)
  {
    IsLayout(g.offsets, g.numRow)
  }

  function NumServers(g: Config): int
  {
    |g.offsets| - 1
  }

  /** The cluster as server i sees it. */
  ghost function View<Row>(c: Cluster<Row>, i: nat): SparseRuns.System<Row>
    requires i < |c.shards| && i < |c.flights|
  {
    SparseRuns.System(c.shards[i], c.copies, c.flights[i])
  }

  ghost predicate InRange<Row>(flights: seq<Flight<Row>>, lo: nat, hi: nat)
  {
    forall k :: 0 <= k < |flights| ==> Within(flights[k].reply.keys, lo, hi)
  }

  ghost predicate AllInRange<Row>(flights: seq<seq<Flight<Row>>>, lo: nat, hi: nat)
  {
    forall w :: 0 <= w < |flights| ==> InRange(flights[w], lo, hi)
  }

  ghost predicate PartShape<Row>(c: Cluster<Row>, g: Config, i: nat)
    requires IsConfig(g) && i < NumServers(g)
  {
    && i < |c.shards| && i < |c.flights|
    && |c.shards[i].rows| == g.offsets[i + 1] - g.offsets[i]
    && SparseRuns.Shape(View(c, i), g.offsets[i], g.numWorkers, g.numRow)
  }

  ghost predicate Shape<Row>(c: Cluster<Row>, g: Config)
  {
    && IsConfig(g) && |c.shards| == |c.flights| == NumServers(g)
    && |c.copies| == |c.requested| == g.numWorkers
    && forall i: nat :: i < NumServers(g) ==> PartShape(c, g, i)
  }

  /** The single server's invariant, and replies that carry only the server's own rows. */
  ghost predicate PartOk<Row>(c: Cluster<Row>, g: Config, i: nat)
    requires IsConfig(g) && i < NumServers(g) && PartShape(c, g, i)
  {
    && SparseRuns.Inv(View(c, i), g.offsets[i], g.numWorkers, g.numRow)
    && AllInRange(c.flights[i], g.offsets[i], g.offsets[i + 1])
  }

  ghost predicate Inv<Row>(c: Cluster<Row>, g: Config)
  {
    && Shape(c, g)
    && forall i: nat :: i < NumServers(g) ==> PartOk(c, g, i)
  }

  // ---- steps ----

  /** Worker w waits for an answer. */
  ghost predicate Busy<Row>(c: Cluster<Row>, w: nat)
    requires w < |c.requested|
  {
    c.requested[w] != {} || exists i: nat :: i < |c.flights| && UnderWay(c, i, w)
  }

  ghost predicate UnderWay<Row>(c: Cluster<Row>, i: nat, w: nat)
    requires i < |c.flights|
  {
    w < |c.flights[i]| && c.flights[i][w] != []
  }

  /** What a step is to the server it happens at. */
  ghost function EventOf<Row>(e: Step<Row>): SparseRuns.Event<Row>
    requires !e.Ask?
  {
    match e
    case AddAt(_, keys, rows) => SparseRuns.Add(keys, rows)
    case Serve(_, w, anonymous) => SparseRuns.Get(w, anonymous)
    case Deliver(_, w) => SparseRuns.Deliver(w)
  }

  ghost predicate Possible<Row>(c: Cluster<Row>, g: Config, e: Step<Row>)
  {
    && Shape(c, g)
    && if e.Ask? then e.worker < g.numWorkers && !Busy(c, e.worker)
       else && e.server < NumServers(g)
            && SparseRuns.Possible(View(c, e.server), g.offsets[e.server], g.numWorkers, g.numRow, EventOf(e))
            && (e.Serve? ==> e.server in c.requested[e.worker])
  }

  ghost function After<Row>(c: Cluster<Row>, g: Config, e: Step<Row>, up: Updater<Row>): Cluster<Row>
    requires Possible(c, g, e)
  {
    if e.Ask? then c.(requested := c.requested[e.worker := Below(NumServers(g))])
    else
      var i := e.server;
      var t := SparseRuns.After(View(c, i), g.offsets[i], g.numWorkers, g.numRow, EventOf(e), up);
      Cluster(c.shards[i := t.shard], t.copies, c.flights[i := t.flights],
              if e.Serve? then c.requested[e.worker := c.requested[e.worker] - {i}] else c.requested)
  }

  // ---- a server's replies concern its own part of a copy only ----

  lemma {:induction false} WrittenPart<Row>(a: seq<Row>, b: seq<Row>, reply: Reply<Row>, base: nat, n: nat, k: nat)
    requires k <= |reply.keys| == |reply.rows| && Within(reply.keys, base, base + n) && base + n <= |a| == |b|
    requires forall p :: base <= p < base + n ==> a[p] == b[p]
    ensures forall p :: base <= p < base + n ==>
              SparseRuns.Written(a, reply, k)[p] == SparseRuns.Written(b, reply, k)[p]
  {
    if k > 0 {
      WrittenPart(a, b, reply, base, n, k - 1);
    }
  }

  lemma {:induction false} WrittenElsewhere<Row>(copy: seq<Row>, reply: Reply<Row>, base: nat, n: nat, k: nat)
    requires k <= |reply.keys| == |reply.rows| && Within(reply.keys, base, base + n) && base + n <= |copy|
    ensures forall p :: 0 <= p < |copy| && !(base <= p < base + n) ==> SparseRuns.Written(copy, reply, k)[p] == copy[p]
  {
    if k > 0 {
      WrittenElsewhere(copy, reply, base, n, k - 1);
    }
  }

  lemma {:induction false} LandedPart<Row>(a: seq<Row>, b: seq<Row>, flights: seq<Flight<Row>>,
                                          base: nat, n: nat, k: nat)
    requires k <= |flights| && SparseRuns.FlightsFit(flights, |a|) && InRange(flights, base, base + n)
    requires base + n <= |a| == |b| && forall p :: base <= p < base + n ==> a[p] == b[p]
    ensures forall p :: base <= p < base + n ==>
              SparseRuns.Landed(a, flights, k)[p] == SparseRuns.Landed(b, flights, k)[p]
  {
    if k > 0 {
      LandedPart(a, b, flights, base, n, k - 1);
      WrittenPart(SparseRuns.Landed(a, flights, k - 1), SparseRuns.Landed(b, flights, k - 1), flights[k - 1].reply,
                  base, n, |flights[k - 1].reply.keys|);
    }
  }

  /** A server's part of the invariant depends on its own part of the copy only. */
  lemma WorkerOkByPart<Row>(rows: seq<Row>, flags: seq<bool>, a: seq<Row>, b: seq<Row>, flights: seq<Flight<Row>>,
                            base: nat)
    requires |flags| == |rows| && base + |rows| <= |a| == |b| && SparseRuns.FlightsFit(flights, |a|)
    requires InRange(flights, base, base + |rows|)
    requires forall p :: base <= p < base + |rows| ==> a[p] == b[p]
    requires SparseRuns.WorkerOk(rows, flags, a, flights, base)
    ensures SparseRuns.WorkerOk(rows, flags, b, flights, base)
  {
    LandedPart(a, b, flights, base, |rows|, |flights|);
    forall r: nat | r < |rows|
      ensures SparseRuns.FlagOk(rows, flags, SparseRuns.Landed(b, flights, |flights|), base, r)
    {
      assert SparseRuns.FlagOk(rows, flags, SparseRuns.Landed(a, flights, |flights|), base, r);
    }
    forall k: nat | k < |flights|
      ensures SparseRuns.FlightOk(b, flights, base, |rows|, k)
    {
      assert SparseRuns.FlightOk(a, flights, base, |rows|, k);
      LandedPart(a, b, flights, base, |rows|, k + 1);
      assert SparseRuns.Part(SparseRuns.Landed(a, flights, k + 1), base, |rows|)
          == SparseRuns.Part(SparseRuns.Landed(b, flights, k + 1), base, |rows|);
    }
  }

  // ---- every step keeps the invariant ----

  /** At the server where it happens, a step is an event of that server's own runs. */
  lemma OwnPartKept<Row>(c: Cluster<Row>, g: Config, e: Step<Row>, up: Updater<Row>)
    requires Inv(c, g) && Possible(c, g, e) && !e.Ask?
    ensures PartShape(After(c, g, e, up), g, e.server) && PartOk(After(c, g, e, up), g, e.server)
  {
    var i := e.server;
    assert PartOk(c, g, i) && PartShape(c, g, i);
    SparseRuns.EventKeeps(View(c, i), g.offsets[i], g.numWorkers, g.numRow, EventOf(e), up);
    var d := After(c, g, e, up);
    assert View(d, i) == SparseRuns.After(View(c, i), g.offsets[i], g.numWorkers, g.numRow, EventOf(e), up);
    RepliesInRange(View(c, i), g.offsets[i], g.numWorkers, g.numRow, EventOf(e), up, g.offsets[i + 1]);
  }

  lemma RepliesInRange<Row>(s: SparseRuns.System<Row>, base: nat, numWorkers: nat, numRow: nat,
                            e: SparseRuns.Event<Row>, up: Updater<Row>, hi: nat)
    requires SparseRuns.Possible(s, base, numWorkers, numRow, e) && hi == base + |s.shard.rows|
    requires AllInRange(s.flights, base, hi)
    ensures AllInRange(SparseRuns.After(s, base, numWorkers, numRow, e, up).flights, base, hi)
  {
    var t := SparseRuns.After(s, base, numWorkers, numRow, e, up);
    forall w | 0 <= w < |t.flights|
      ensures InRange(t.flights[w], base, hi)
    {
      assert InRange(s.flights[w], base, hi);
    }
  }

  lemma OtherPartKept<Row>(c: Cluster<Row>, g: Config, e: Step<Row>, up: Updater<Row>, j: nat)
    requires Inv(c, g) && Possible(c, g, e) && !e.Ask? && j < NumServers(g) && j != e.server
    ensures PartShape(After(c, g, e, up), g, j) && PartOk(After(c, g, e, up), g, j)
  {
    assert PartOk(c, g, j) && PartShape(c, g, j);
    var d := After(c, g, e, up);
    if e.Deliver? {
      DeliveredElsewhere(c, g, e, up, j);
    } else {
      assert View(d, j) == View(c, j);
    }
  }

  lemma DeliveredElsewhere<Row>(c: Cluster<Row>, g: Config, e: Step<Row>, up: Updater<Row>, j: nat)
    requires Inv(c, g) && Possible(c, g, e) && e.Deliver? && j < NumServers(g) && j != e.server
    ensures PartShape(After(c, g, e, up), g, j) && PartOk(After(c, g, e, up), g, j)
    ensures After(c, g, e, up).shards == c.shards
    ensures forall p :: g.offsets[j] <= p < g.offsets[j + 1] ==>
              After(c, g, e, up).copies[e.worker][p] == c.copies[e.worker][p]
  {
    var d, i, w := After(c, g, e, up), e.server, e.worker;
    assert PartShape(c, g, i) && PartShape(c, g, j) && PartOk(c, g, i) && PartOk(c, g, j);
    var reply := c.flights[i][w][0].reply;
    assert InRange(c.flights[i][w], g.offsets[i], g.offsets[i + 1]);
    WrittenElsewhere(c.copies[w], reply, g.offsets[i], g.offsets[i + 1] - g.offsets[i], |reply.keys|);
    assert SparseRuns.Landed(c.copies[w], c.flights[i][w], 0) == c.copies[w];
    assert d.copies[w] == SparseRuns.Written(c.copies[w], reply, |reply.keys|);
    Apart(g, i, j);
    forall v: nat | v < g.numWorkers
      ensures SparseRuns.WorkerOk(d.shards[j].rows, d.shards[j].upToDate[v], d.copies[v], d.flights[j][v], g.offsets[j])
    {
      var s := View(c, j);
      assert SparseRuns.WorkerOk(s.shard.rows, s.shard.upToDate[v], s.copies[v], s.flights[v], g.offsets[j]);
      assert InRange(c.flights[j][v], g.offsets[j], g.offsets[j + 1]);
      WorkerOkByPart(s.shard.rows, s.shard.upToDate[v], c.copies[v], d.copies[v], s.flights[v], g.offsets[j]);
    }
  }

  lemma Apart(g: Config, i: nat, j: nat)
    requires IsConfig(g) && i < NumServers(g) && j < NumServers(g) && i != j
    ensures g.offsets[i + 1] <= g.offsets[j] || g.offsets[j + 1] <= g.offsets[i]
  {
  }

  lemma StepKeeps<Row>(c: Cluster<Row>, g: Config, e: Step<Row>, up: Updater<Row>)
    requires Inv(c, g) && Possible(c, g, e)
    ensures Inv(After(c, g, e, up), g)
  {
    var d := After(c, g, e, up);
    forall j: nat | j < NumServers(g)
      ensures PartShape(d, g, j) && PartOk(d, g, j)
    {
      if e.Ask? {
        assert PartShape(c, g, j) && PartOk(c, g, j);
        assert View(d, j) == View(c, j);
      } else if j == e.server {
        OwnPartKept(c, g, e, up);
      } else {
        OtherPartKept(c, g, e, up, j);
      }
    }
  }

  // ---- runs ----

  ghost predicate IsStart<Row>(c: Cluster<Row>, g: Config)
  {
    && Shape(c, g)
    && (forall w :: 0 <= w < g.numWorkers ==> c.requested[w] == {})
    && forall i: nat :: i < NumServers(g) ==>
         PartShape(c, g, i) && SparseRuns.IsStart(View(c, i), g.offsets[i], g.numWorkers, g.numRow)
  }

  ghost predicate Leads<Row(!new)>(c: Cluster<Row>, g: Config, up: Updater<Row>, d: Cluster<Row>)
  {
    exists e :: Possible(c, g, e) && d == After(c, g, e, up)
  }

  ghost predicate StepAt<Row(!new)>(runs: seq<Cluster<Row>>, g: Config, up: Updater<Row>, t: nat)
    requires t + 1 < |runs|
  {
    Leads(runs[t], g, up, runs[t + 1])
  }

  ghost predicate IsRun<Row(!new)>(runs: seq<Cluster<Row>>, g: Config, up: Updater<Row>)
  {
    && runs != [] && IsStart(runs[0], g)
    && forall t: nat :: t + 1 < |runs| ==> StepAt(runs, g, up, t)
  }

  lemma StartIsFine<Row>(c: Cluster<Row>, g: Config)
    requires IsStart(c, g)
    ensures Inv(c, g)
  {
    forall i: nat | i < NumServers(g)
      ensures PartOk(c, g, i)
    {
      assert PartShape(c, g, i);
    }
  }

  lemma LeadsKeeps<Row(!new)>(c: Cluster<Row>, g: Config, up: Updater<Row>, d: Cluster<Row>)
    requires Inv(c, g) && Leads(c, g, up, d)
    ensures Inv(d, g)
  {
    var e :| Possible(c, g, e) && d == After(c, g, e, up);
    StepKeeps(c, g, e, up);
  }

  /** Every part's invariant holds in every state of every run, whatever the other servers do. */
  lemma {:induction false} RunsKeepInvariant<Row(!new)>(runs: seq<Cluster<Row>>, g: Config, up: Updater<Row>, t: nat)
    requires IsRun(runs, g, up) && t < |runs|
    ensures Inv(runs[t], g)
  {
    if t == 0 {
      StartIsFine(runs[0], g);
    } else {
      RunsKeepInvariant(runs, g, up, t - 1);
      assert StepAt(runs, g, up, t - 1);
      LeadsKeeps(runs[t - 1], g, up, runs[t]);
    }
  }

  /** Server i's part of worker w's copy. */
  ghost function PartOf<Row>(c: Cluster<Row>, g: Config, i: nat, w: nat): seq<Row>
    requires Shape(c, g) && i < NumServers(g) && w < g.numWorkers
  {
    assert PartShape(c, g, i);
    SparseRuns.Part(c.copies[w], g.offsets[i], g.offsets[i + 1] - g.offsets[i])
  }

  ghost function FlightsOf<Row>(c: Cluster<Row>, g: Config, i: nat, w: nat): seq<Flight<Row>>
    requires Shape(c, g) && i < NumServers(g) && w < g.numWorkers
  {
    assert PartShape(c, g, i);
    c.flights[i][w]
  }

  /** What a step changes between worker w and server i: nothing, or the get is processed and its reply
      leaves, or a reply arrives and makes the part what the shard was. */
  lemma StepMoves<Row>(c: Cluster<Row>, g: Config, e: Step<Row>, up: Updater<Row>, i: nat, w: nat)
    requires Inv(c, g) && Possible(c, g, e) && i < NumServers(g) && w < g.numWorkers && e != Ask(w)
    ensures Shape(After(c, g, e, up), g)
    ensures var d := After(c, g, e, up);
            if e.Serve? && e.server == i && e.worker == w then
              && i in c.requested[w] && i !in d.requested[w] && |FlightsOf(d, g, i, w)| == |FlightsOf(c, g, i, w)| + 1
              && FlightsOf(d, g, i, w)[|FlightsOf(c, g, i, w)|].snapshot == c.shards[i].rows
            else if e.Deliver? && e.server == i && e.worker == w then
              && (i in d.requested[w] <==> i in c.requested[w])
              && FlightsOf(c, g, i, w) != [] && FlightsOf(d, g, i, w) == FlightsOf(c, g, i, w)[1..]
              && PartOf(d, g, i, w) == FlightsOf(c, g, i, w)[0].snapshot
            else
              && (i in d.requested[w] <==> i in c.requested[w])
              && FlightsOf(d, g, i, w) == FlightsOf(c, g, i, w) && PartOf(d, g, i, w) == PartOf(c, g, i, w)
  {
    StepKeeps(c, g, e, up);
    assert PartShape(c, g, i) && PartOk(c, g, i);
    if e.Deliver? && e.worker == w {
      if e.server == i {
        SparseRuns.DeliverKeeps(View(c, i), g.offsets[i], g.numWorkers, g.numRow, w, up);
      } else {
        DeliveredElsewhere(c, g, e, up, i);
      }
    }
  }

  /** Only adds change what a server stores, and only where they are processed. */
  lemma StepChangesShards<Row>(c: Cluster<Row>, g: Config, e: Step<Row>, up: Updater<Row>, i: nat)
    requires Possible(c, g, e) && i < NumServers(g)
    ensures i < |c.shards| && i < |After(c, g, e, up).shards|
    ensures After(c, g, e, up).shards[i].rows
         == if e.AddAt? && e.server == i then SparseRuns.RowsAfter(c.shards[i].rows, g.offsets[i], EventOf(e), up)
            else c.shards[i].rows
  {
    assert PartShape(c, g, i);
    if !e.Ask? && e.server == i {
      SparseRuns.StepAdds(View(c, i), g.offsets[i], g.numWorkers, g.numRow, EventOf(e), up);
    }
  }

  // ---- a get of the whole table ----

  /** Server i's shard held these rows at some time from a to t. */
  ghost predicate HeldBetween<Row>(runs: seq<Cluster<Row>>, a: nat, t: nat, i: nat, rows: seq<Row>)
  {
    exists k: nat :: a <= k <= t && HeldAt(runs, k, i, rows)
  }

  ghost predicate HeldAt<Row>(runs: seq<Cluster<Row>>, k: nat, i: nat, rows: seq<Row>)
  {
    k < |runs| && i < |runs[k].shards| && runs[k].shards[i].rows == rows
  }

  /** How far worker w's get, sent at time a, has come with server i at time t. */
  ghost predicate Progress<Row>(runs: seq<Cluster<Row>>, g: Config, a: nat, t: nat, i: nat, w: nat)
    requires t < |runs| && i < NumServers(g) && w < g.numWorkers
  {
    Shape(runs[t], g) && HasCome(runs, g, runs[t], a, t, i, w)
  }

  ghost predicate HasCome<Row>(runs: seq<Cluster<Row>>, g: Config, c: Cluster<Row>, a: nat, t: nat, i: nat, w: nat)
    requires Shape(c, g) && i < NumServers(g) && w < g.numWorkers
  {
    if i in c.requested[w] then FlightsOf(c, g, i, w) == []
    else if FlightsOf(c, g, i, w) != [] then
      |FlightsOf(c, g, i, w)| == 1 && HeldBetween(runs, a, t, i, FlightsOf(c, g, i, w)[0].snapshot)
    else HeldBetween(runs, a, t, i, PartOf(c, g, i, w))
  }

  lemma HeldLater<Row>(runs: seq<Cluster<Row>>, a: nat, t: nat, i: nat, rows: seq<Row>)
    requires HeldBetween(runs, a, t, i, rows)
    ensures HeldBetween(runs, a, t + 1, i, rows)
  {
    var k: nat :| a <= k <= t && HeldAt(runs, k, i, rows);
    assert HeldAt(runs, k, i, rows);
  }

  lemma ProgressStep<Row(!new)>(runs: seq<Cluster<Row>>, g: Config, up: Updater<Row>, a: nat, t: nat, i: nat, w: nat)
    requires IsRun(runs, g, up) && a <= t && t + 1 < |runs| && i < NumServers(g) && w < g.numWorkers
    requires Progress(runs, g, a, t, i, w) && IsWaiting(runs, t, w)
    ensures Progress(runs, g, a, t + 1, i, w)
  {
    var c := runs[t];
    RunsKeepInvariant(runs, g, up, t);
    assert StepAt(runs, g, up, t);
    var e :| Possible(c, g, e) && runs[t + 1] == After(c, g, e, up);
    StepMoves(c, g, e, up, i, w);
    assert HeldAt(runs, t, i, c.shards[i].rows);
    assert HeldBetween(runs, a, t, i, c.shards[i].rows);
    HeldLater(runs, a, t, i, c.shards[i].rows);
    if i !in c.requested[w] {
      HeldLater(runs, a, t, i, if FlightsOf(c, g, i, w) != [] then FlightsOf(c, g, i, w)[0].snapshot
                               else PartOf(c, g, i, w));
    }
  }

  ghost predicate IsWaiting<Row>(runs: seq<Cluster<Row>>, t: nat, w: nat)
  {
    t < |runs| && w < |runs[t].requested| && Busy(runs[t], w)
  }

  /** From time a, when the get is sent, up to time b worker w has been waiting. */
  ghost predicate GetFrom<Row(!new)>(runs: seq<Cluster<Row>>, g: Config, up: Updater<Row>, a: nat, b: nat, w: nat)
  {
    && a < b < |runs| && w < g.numWorkers
    && Possible(runs[a], g, Ask(w)) && runs[a + 1] == After(runs[a], g, Ask(w), up)
    && forall t: nat :: a < t < b ==> IsWaiting(runs, t, w)
  }

  lemma GetStarts<Row(!new)>(runs: seq<Cluster<Row>>, g: Config, up: Updater<Row>, a: nat, b: nat, i: nat, w: nat)
    requires IsRun(runs, g, up) && GetFrom(runs, g, up, a, b, w) && i < NumServers(g)
    ensures Progress(runs, g, a, a + 1, i, w)
  {
    var c, d := runs[a], runs[a + 1];
    RunHasShape(runs, g, up, a + 1);
    AskedOnly(runs, c, d, g, up, a, i, w);
  }

  lemma RunHasShape<Row(!new)>(runs: seq<Cluster<Row>>, g: Config, up: Updater<Row>, t: nat)
    requires IsRun(runs, g, up) && t < |runs|
    ensures Shape(runs[t], g)
  {
    RunsKeepInvariant(runs, g, up, t);
  }

  /** No reply is under way yet. */
  lemma AskedOnly<Row>(runs: seq<Cluster<Row>>, c: Cluster<Row>, d: Cluster<Row>, g: Config, up: Updater<Row>,
                       a: nat, i: nat, w: nat)
    requires Possible(c, g, Ask(w)) && i < NumServers(g) && d == After(c, g, Ask(w), up) && Shape(d, g)
    ensures HasCome(runs, g, d, a, a + 1, i, w)
  {
    assert PartShape(c, g, i);
    assert !UnderWay(c, i, w);
  }

  lemma {:induction false} GetProgresses<Row(!new)>(runs: seq<Cluster<Row>>, g: Config, up: Updater<Row>,
                                                    a: nat, b: nat, t: nat, i: nat, w: nat)
    requires IsRun(runs, g, up) && GetFrom(runs, g, up, a, b, w) && a < t <= b && i < NumServers(g)
    ensures Progress(runs, g, a, t, i, w)
    decreases t
  {
    if t == a + 1 {
      GetStarts(runs, g, up, a, b, i, w);
    } else {
      GetProgresses(runs, g, up, a, b, t - 1, i, w);
      ProgressStep(runs, g, up, a, t - 1, i, w);
    }
  }

  /** When a get of the whole table is finished, every server's part of the copy is what that server held
      at some time between sending the get and its end. */
  lemma FinishedGetIsRecent<Row(!new)>(runs: seq<Cluster<Row>>, g: Config, up: Updater<Row>,
                                       a: nat, b: nat, i: nat, w: nat)
    requires IsRun(runs, g, up) && GetFrom(runs, g, up, a, b, w) && i < NumServers(g)
    ensures Shape(runs[b], g)
    ensures !Busy(runs[b], w) ==> HeldBetween(runs, a, b, i, PartOf(runs[b], g, i, w))
  {
    GetProgresses(runs, g, up, a, b, b, i, w);
    assert PartShape(runs[b], g, i);
    assert !Busy(runs[b], w) ==> !UnderWay(runs[b], i, w);
  }

  /** All servers together hold the matrix m at time k. */
  ghost predicate HoldsAt<Row>(runs: seq<Cluster<Row>>, g: Config, k: nat, m: seq<Row>)
    requires IsConfig(g) && |m| == g.numRow
  {
    forall i: nat :: i < NumServers(g) ==> HeldAt(runs, k, i, m[g.offsets[i]..g.offsets[i + 1]])
  }

  /** If the table holds the same matrix throughout, the finished get delivers it. */
  lemma QuietGetIsExact<Row(!new)>(runs: seq<Cluster<Row>>, g: Config, up: Updater<Row>,
                                   a: nat, b: nat, w: nat, m: seq<Row>)
    requires IsRun(runs, g, up) && GetFrom(runs, g, up, a, b, w) && IsConfig(g) && |m| == g.numRow
    requires forall k: nat :: a <= k <= b ==> HoldsAt(runs, g, k, m)
    ensures Shape(runs[b], g)
    ensures !Busy(runs[b], w) ==> runs[b].copies[w] == m
  {
    RunHasShape(runs, g, up, b);
    if !Busy(runs[b], w) {
      assert PartShape(runs[b], g, 0);
      forall p: nat | p < |m|
        ensures runs[b].copies[w][p] == m[p]
      {
        QuietRow(runs, g, up, a, b, w, m, p);
      }
    }
  }

  lemma QuietRow<Row(!new)>(runs: seq<Cluster<Row>>, g: Config, up: Updater<Row>,
                            a: nat, b: nat, w: nat, m: seq<Row>, p: nat)
    requires IsRun(runs, g, up) && GetFrom(runs, g, up, a, b, w) && IsConfig(g) && p < |m| == g.numRow
    requires forall k: nat :: a <= k <= b ==> HoldsAt(runs, g, k, m)
    requires Shape(runs[b], g) && !Busy(runs[b], w) && |runs[b].copies[w]| == g.numRow
    ensures runs[b].copies[w][p] == m[p]
  {
    var i := ShardedMatrix.OwnerOf(g.offsets, g.numRow, p, NumServers(g));
    FinishedGetIsRecent(runs, g, up, a, b, i, w);
    var part := PartOf(runs[b], g, i, w);
    var k: nat :| a <= k <= b && HeldAt(runs, k, i, part);
    assert HoldsAt(runs, g, k, m) && HeldAt(runs, k, i, m[g.offsets[i]..g.offsets[i + 1]]);
    assert part[p - g.offsets[i]] == m[g.offsets[i]..g.offsets[i + 1]][p - g.offsets[i]];
  }
}
