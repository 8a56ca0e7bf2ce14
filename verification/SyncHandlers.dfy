/** Every handler keeps the invariant, and none of the server's checks fails. */
module SyncHandlers {
  import opened VectorClocks
  import opened SyncWorkload
  import opened SyncServer
  import opened SyncInvariant
  import opened SyncSteps

  lemma HeadIsListed(ms: seq<Message>)
    requires ms != []
    ensures Indices(ms, ms[0].worker) != []
  {
    IndicesSplit(ms, 0, ms[0].worker);
    IndicesOne(ms[0], ms[0].worker);
  }

  /** All running workers are level with the global clock. */
  ghost predicate AllAt(c: Run, clock: Clock)
    requires |clock.local| == |c.done|
  {
    forall u: nat :: Active(c, u) ==> clock.local[u] == clock.global
  }

  // ---- answering all waiting gets ----

  /** Ready to answer them: all running workers have the same number of adds applied, none is
      waiting, and the holder stays behind in the get clock. */
  ghost predicate GetsFlow(word: seq<Request>, c: Run, n: nat, leaver: int, holder: nat)
  {
    && Core(word, c, n, leaver) && Shape(word, c, n) && c.server.ok
    && c.server.addCache == [] && AllAt(c, c.server.adds)
    && holder < n && c.server.gets.local[holder] == c.server.gets.global && !Blocked(c, holder)
  }

  lemma NothingWaits(word: seq<Request>, c: Run, n: nat, leaver: int, w: nat)
    requires Core(word, c, n, leaver) && c.server.addCache == [] && Active(c, w)
    ensures c.server.waited[w] == 0 && c.server.adds.local[w] == AddsIn(word, c.pos[w])
    ensures Blocked(c, w) ==> c.server.adds.local[w] == AddsDue(word, c.server.gets.local[w])
    ensures 0 <= c.server.gets.local[w] < INT_MAX
  {
    ActiveFacts(word, c, n, leaver, w);
    assert WorkerOk(word, c, n, w, leaver);
  }

  lemma BlockedIsActive(word: seq<Request>, c: Run, n: nat, leaver: int, w: nat)
    requires Core(word, c, n, leaver) && Blocked(c, w) && w < n
    ensures Active(c, w)
  {
    assert WorkerOk(word, c, n, w, leaver);
  }

  lemma FlowServes(word: seq<Request>, c: Run, c': Run, n: nat, leaver: int, holder: nat)
    requires GetsFlow(word, c, n, leaver, holder) && c.server.getCache != []
    requires c' == c.(server := ServeCached(c.server, n))
    ensures Serves(word, c, c', n, leaver, 0)
  {
    var v := c.server.getCache[0].worker;
    HeadIsListed(c.server.getCache);
    BlockedIsActive(word, c, n, leaver, v);
    NothingWaits(word, c, n, leaver, v);
    assert c.server.getCache[..0] + c.server.getCache[1..] == c.server.getCache[1..];
  }

  lemma FlowGoesOn(word: seq<Request>, c: Run, c': Run, n: nat, leaver: int, holder: nat)
    requires GetsFlow(word, c, n, leaver, holder) && c.server.getCache != []
    requires c' == c.(server := ServeCached(c.server, n))
    ensures GetsFlow(word, c', n, leaver, holder)
    ensures c'.server.adds == c.server.adds && c'.server.gets.global == c.server.gets.global
  {
    FlowServes(word, c, c', n, leaver, holder);
    ServeKeeps(word, c, c', n, leaver, 0);
    ServeFacts(word, c, c', n, leaver, 0);
    var v := c.server.getCache[0].worker;
    TickHeld(c.server.gets, v, holder);
    ServeHolder(word, c, c', n, leaver, holder);
  }

  lemma ServeHolder(word: seq<Request>, c: Run, c': Run, n: nat, leaver: int, w: nat)
    requires Serves(word, c, c', n, leaver, 0) && w < n
    ensures |c'.server.gets.local| == n
    ensures c'.server.gets.local[w] + |Indices(c'.server.getCache, w)|
         == c.server.gets.local[w] + |Indices(c.server.getCache, w)|
    ensures !Blocked(c, w) ==> !Blocked(c', w)
  {
    ServeFacts(word, c, c', n, leaver, 0);
    assert WorkerOk(word, c, n, w, leaver);
    ServeAccounted(word, c, c', n, 0, w);
  }

  lemma {:induction false} DrainGetsKeeps(word: seq<Request>, c: Run, c': Run, n: nat, leaver: int, holder: nat)
    requires GetsFlow(word, c, n, leaver, holder)
    requires c' == c.(server := ServeAllCached(c.server, n))
    ensures GetsFlow(word, c', n, leaver, holder) && c'.server.getCache == []
    ensures c'.server.gets.global == c.server.gets.global
    ensures forall w: nat :: w < n ==>
              c'.server.gets.local[w] == c.server.gets.local[w] + |Indices(c.server.getCache, w)|
    decreases |c.server.getCache|
  {
    if c.server.getCache != [] {
      var c1 := c.(server := ServeCached(c.server, n));
      FlowGoesOn(word, c, c1, n, leaver, holder);
      DrainGetsKeeps(word, c1, c', n, leaver, holder);
      FlowServes(word, c, c1, n, leaver, holder);
      forall w: nat | w < n
        ensures c'.server.gets.local[w] == c.server.gets.local[w] + |Indices(c.server.getCache, w)|
      {
        ServeHolder(word, c, c1, n, leaver, w);
      }
    }
  }

  // ---- applying all waiting adds ----

  /** Ready to apply them: all running workers have had the same number of answers, and the holder
      stays behind in the add clock. */
  ghost predicate AddsFlow(word: seq<Request>, c: Run, n: nat, holder: nat)
  {
    && Core(word, c, n, -1) && Shape(word, c, n) && c.server.ok
    && AllAt(c, c.server.gets)
    && holder < n && c.server.adds.local[holder] == c.server.adds.global && c.server.waited[holder] == 0
  }

  /** With all running workers at the same get, the oldest waiting add may be applied. */
  lemma OldestApplies(word: seq<Request>, c: Run, c': Run, n: nat)
    requires Core(word, c, n, -1) && Shape(word, c, n) && AllAt(c, c.server.gets)
    requires c.server.addCache != [] && c' == c.(server := ApplyCached(c.server, n))
    ensures Applies(word, c, c', n)
    ensures c.server.waited[c.server.addCache[0].worker] > 0
    ensures c.server.adds.local[c.server.addCache[0].worker] < INT_MAX
  {
    var v := c.server.addCache[0].worker;
    HeadIsListed(c.server.addCache);
    assert WorkerOk(word, c, n, v, -1);
    ActiveFacts(word, c, n, -1, v);
  }

  lemma FlowApplies(word: seq<Request>, c: Run, c': Run, n: nat, holder: nat)
    requires AddsFlow(word, c, n, holder) && c.server.addCache != []
    requires c' == c.(server := ApplyCached(c.server, n))
    ensures Applies(word, c, c', n) && c.server.addCache[0].worker != holder
    ensures c.server.adds.local[c.server.addCache[0].worker] < INT_MAX
  {
    OldestApplies(word, c, c', n);
  }

  lemma ApplyTotals(word: seq<Request>, c: Run, c': Run, n: nat, w: nat)
    requires Applies(word, c, c', n) && w < n
    ensures |c'.server.adds.local| == |c'.server.waited| == n
    ensures c'.server.adds.local[w] + c'.server.waited[w] == c.server.adds.local[w] + c.server.waited[w]
    ensures w != c.server.addCache[0].worker ==>
              c'.server.adds.local[w] == c.server.adds.local[w] && c'.server.waited[w] == c.server.waited[w]
  {
  }

  lemma FlowAppliesOn(word: seq<Request>, c: Run, c': Run, n: nat, holder: nat)
    requires AddsFlow(word, c, n, holder) && c.server.addCache != []
    requires c' == c.(server := ApplyCached(c.server, n))
    ensures AddsFlow(word, c', n, holder) && c'.server.adds.global == c.server.adds.global
  {
    FlowApplies(word, c, c', n, holder);
    ApplyKeeps(word, c, c', n);
    TickHeld(c.server.adds, c.server.addCache[0].worker, holder);
    ApplyTotals(word, c, c', n, holder);
  }

  lemma {:induction false} DrainAddsKeeps(word: seq<Request>, c: Run, c': Run, n: nat, holder: nat)
    requires AddsFlow(word, c, n, holder)
    requires c' == c.(server := ApplyAllCached(c.server, n))
    ensures AddsFlow(word, c', n, holder) && c'.server.addCache == []
    ensures c'.server.adds.global == c.server.adds.global
    ensures c'.server.getCache == c.server.getCache
    ensures forall w: nat :: w < n ==>
              c'.server.waited[w] == 0
              && c'.server.adds.local[w] == c.server.adds.local[w] + c.server.waited[w]
    decreases |c.server.addCache|
  {
    if c.server.addCache != [] {
      var c1 := c.(server := ApplyCached(c.server, n));
      FlowAppliesOn(word, c, c1, n, holder);
      DrainAddsKeeps(word, c1, c', n, holder);
      FlowApplies(word, c, c1, n, holder);
      forall w: nat | w < n
        ensures c'.server.adds.local[w] == c.server.adds.local[w] + c.server.waited[w]
      {
        ApplyTotals(word, c, c1, n, w);
      }
    } else {
      forall w: nat | w < n
        ensures c.server.waited[w] == 0
      {
        assert WorkerOk(word, c, n, w, -1);
      }
    }
  }

  // ---- an add ----

  ghost predicate Sends(word: seq<Request>, c: Run, n: nat, w: nat)
  {
    Inv(word, c, n) && Active(c, w) && !Blocked(c, w) && c.pos[w] < |word|
  }

  /** The request of worker w, waiting. */
  ghost function Queue(word: seq<Request>, c: Run, n: nat, w: nat): (q: Run)
    requires Shape(word, c, n) && w < n && c.pos[w] < |word|
    ensures Queued(word, c, q, n, w)
  {
    var s := c.server;
    var p := c.pos[w];
    c.(pos := c.pos[w := p + 1],
       server := if word[p] == Add then
                   s.(addCache := s.addCache + [Message(w, AddsIn(word, p))], waited := s.waited[w := s.waited[w] + 1])
                 else s.(getCache := s.getCache + [Message(w, GetsIn(word, p))]))
  }

  ghost function AfterAdd(word: seq<Request>, c: Run, n: nat, w: nat): Run
    requires Shape(word, c, n) && w < n && c.pos[w] < |word| && word[c.pos[w]] == Add
  {
    Run(OnAdd(c.server, Message(w, AddsIn(word, c.pos[w])), n), c.pos[w := c.pos[w] + 1], c.done)
  }

  lemma AddHeldBack(word: seq<Request>, c: Run, n: nat, w: nat)
    requires Sends(word, c, n, w) && word[c.pos[w]] == Add
    requires c.server.gets.local[w] > c.server.gets.global
    ensures Inv(word, AfterAdd(word, c, n, w), n)
  {
    var q := Queue(word, c, n, w);
    assert q == AfterAdd(word, c, n, w);
    QueueKeeps(word, c, q, n, w);
    assert q.server.getCache == c.server.getCache;
    assert forall v: nat :: Blocked(q, v) == Blocked(c, v);
  }

  /** An add that is not held back finds every running worker at the same get. */
  lemma AddMeetsNobodyAhead(word: seq<Request>, c: Run, n: nat, w: nat)
    requires Sends(word, c, n, w) && word[c.pos[w]] == Add
    requires c.server.gets.local[w] <= c.server.gets.global
    ensures AllAt(c, c.server.gets) && c.server.addCache == []
    ensures c.server.adds.local[w] < Due(word, c)
  {
    ActiveFacts(word, c, n, -1, w);
    assert WorkerOk(word, c, n, w, -1);
    DueAfterAdd(word, c.pos[w]);
    NobodyAheadIfNotLevel(word, c, n, w);
    NobodyAheadNothingWaits(word, c, n);
  }

  lemma NobodyAheadIfNotLevel(word: seq<Request>, c: Run, n: nat, w: nat)
    requires Core(word, c, n, -1) && Active(c, w) && c.server.adds.local[w] != Due(word, c)
    ensures AllAt(c, c.server.gets)
  {
    forall u: nat | Active(c, u)
      ensures c.server.gets.local[u] == c.server.gets.global
    {
      assert AheadOk(word, c, n, u);
      ActiveFacts(word, c, n, -1, u);
    }
  }

  lemma NobodyAheadNothingWaits(word: seq<Request>, c: Run, n: nat)
    requires Core(word, c, n, -1) && Settled(word, c, n) && AllAt(c, c.server.gets)
    ensures c.server.addCache == []
  {
    forall v: nat | v < n
      ensures Indices(c.server.addCache, v) == []
    {
      assert WorkerOk(word, c, n, v, -1);
    }
    NobodyListed(c.server.addCache, n);
  }

  lemma NobodyListed(ms: seq<Message>, n: nat)
    requires Known(ms, n) && forall v: nat :: v < n ==> Indices(ms, v) == []
    ensures ms == []
  {
    if ms != [] {
      HeadIsListed(ms);
    }
  }

  /** An add that is not held back, before any waiting get is answered. */
  ghost function Applied(word: seq<Request>, c: Run, n: nat, w: nat): Run
    requires Shape(word, c, n) && w < n && c.pos[w] < |word|
  {
    c.(server := TickAdds(Apply(c.server, Message(w, AddsIn(word, c.pos[w]))), w), pos := c.pos[w := c.pos[w] + 1])
  }

  lemma AddApplied(word: seq<Request>, c: Run, a: Run, n: nat, w: nat)
    requires Sends(word, c, n, w) && word[c.pos[w]] == Add && a == Applied(word, c, n, w)
    requires c.server.gets.local[w] <= c.server.gets.global
    ensures Core(word, a, n, -1) && a.server.ok && a.server.addCache == []
  {
    AddMeetsNobodyAhead(word, c, n, w);
    ActiveFacts(word, c, n, -1, w);
    var q := Queue(word, c, n, w);
    QueueKeeps(word, c, q, n, w);
    assert q.server.addCache[1..] == [];
    assert a.server == AppliedFirst(q.server, n).(ok := a.server.ok);
    ApplyKeeps(word, q, a, n);
  }

  lemma ReachedMeansLevel(word: seq<Request>, c: Run, n: nat, leaver: int)
    requires Core(word, c, n, leaver) && NobodyAhead(c.server.adds)
    ensures AllAt(c, c.server.adds)
  {
    forall u: nat | Active(c, u)
      ensures c.server.adds.local[u] == c.server.adds.global
    {
      ActiveFacts(word, c, n, leaver, u);
    }
  }

  /** Whoever waits for an answer with all adds applied has as many applied as anybody. */
  lemma WaiterLeads(word: seq<Request>, c: Run, n: nat, leaver: int, v: nat)
    requires Core(word, c, n, leaver) && Active(c, v) && Blocked(c, v) && c.server.waited[v] == 0
    ensures forall u: nat :: Active(c, u) ==> c.server.adds.local[u] <= c.server.adds.local[v]
    ensures !NobodyAhead(c.server.adds) ==> c.server.adds.local[v] > c.server.adds.global
  {
    assert WorkerOk(word, c, n, v, leaver);
    ActiveFacts(word, c, n, leaver, v);
    forall u: nat | Active(c, u)
      ensures c.server.adds.local[u] <= c.server.adds.local[v]
    {
      ActiveFacts(word, c, n, leaver, u);
    }
    forall u: nat | u < n
      ensures c.server.adds.local[u] == INT_MAX || c.server.adds.local[u] <= c.server.adds.local[v]
    {
      assert WorkerOk(word, c, n, u, leaver);
    }
  }

  /** Raising the add clock without reaching everybody leaves the waiting gets waiting for a reason. */
  lemma StillWaiting(word: seq<Request>, c: Run, a: Run, n: nat, leaver: int, v: nat)
    requires Core(word, a, n, leaver) && Active(a, v) && Blocked(a, v)
    requires |c.server.adds.local| == n && a.server.adds.global >= c.server.adds.global
    requires !Reached(c.server.adds, a.server.adds)
    requires a.server.waited[v] == 0 ==> a.server.adds.local[v] > c.server.adds.global
    ensures a.server.adds.local[v] > a.server.adds.global || a.server.waited[v] > 0
  {
    assert WorkerOk(word, a, n, v, leaver);
    if a.server.waited[v] == 0 {
      WaiterLeads(word, a, n, leaver, v);
    }
  }

  lemma AddTaken(word: seq<Request>, c: Run, n: nat, w: nat)
    requires Sends(word, c, n, w) && word[c.pos[w]] == Add
    requires c.server.gets.local[w] <= c.server.gets.global
    ensures Inv(word, AfterAdd(word, c, n, w), n)
  {
    var a := Applied(word, c, n, w);
    var c' := AfterAdd(word, c, n, w);
    AddApplied(word, c, a, n, w);
    ActiveFacts(word, c, n, -1, w);
    if Reached(c.server.adds, a.server.adds) {
      ReachedMeansLevel(word, a, n, -1);
      assert a.server.(ok := a.server.ok && a.server.addCache == []) == a.server;
      DrainGetsKeeps(word, a, c', n, -1, w);
      DrainedIsSettled(word, c', n, -1);
    } else {
      assert c' == a;
      AddLeavesSettled(word, c, a, n, w);
    }
  }

  lemma DrainedIsSettled(word: seq<Request>, c: Run, n: nat, leaver: int)
    requires Core(word, c, n, leaver) && c.server.addCache == [] && c.server.getCache == []
    ensures Settled(word, c, n)
  {
    forall w: nat | Active(c, w)
      ensures c.server.waited[w] == 0 && !Blocked(c, w)
    {
      NothingWaits(word, c, n, leaver, w);
    }
  }

  lemma AddLeavesSettled(word: seq<Request>, c: Run, a: Run, n: nat, w: nat)
    requires Sends(word, c, n, w) && word[c.pos[w]] == Add && a == Applied(word, c, n, w)
    requires Core(word, a, n, -1) && a.server.addCache == []
    requires !Reached(c.server.adds, a.server.adds)
    ensures Settled(word, a, n)
  {
    TickKeepsStep(c.server.adds, w);
    forall v: nat | Active(a, v)
      ensures a.server.waited[v] == 0
      ensures Blocked(a, v) ==> a.server.adds.local[v] > a.server.adds.global
    {
      NothingWaits(word, a, n, -1, v);
      if Blocked(a, v) {
        assert Blocked(c, v) && c.server.waited[v] == 0 && v != w;
        StillWaiting(word, c, a, n, -1, v);
      }
    }
  }

  // ---- a get ----

  ghost function AfterGet(word: seq<Request>, c: Run, n: nat, w: nat): Run
    requires Shape(word, c, n) && w < n && c.pos[w] < |word| && word[c.pos[w]] == Get
  {
    Run(OnGet(c.server, Message(w, GetsIn(word, c.pos[w])), n), c.pos[w := c.pos[w] + 1], c.done)
  }

  lemma GetHeldBack(word: seq<Request>, c: Run, n: nat, w: nat)
    requires Sends(word, c, n, w) && word[c.pos[w]] == Get
    requires c.server.adds.local[w] > c.server.adds.global || c.server.waited[w] > 0
    ensures Inv(word, AfterGet(word, c, n, w), n)
  {
    var q := Queue(word, c, n, w);
    assert q == AfterGet(word, c, n, w);
    QueueKeeps(word, c, q, n, w);
    forall v: nat | Active(q, v) && v != w
      ensures Blocked(q, v) == Blocked(c, v)
    {
      assert WorkerOk(word, c, n, v, -1);
      QueueGet(word, c, q, n, w, v);
    }
  }

  /** A get that is not held back, before any waiting add is applied. */
  ghost function Served(word: seq<Request>, c: Run, n: nat, w: nat): Run
    requires Shape(word, c, n) && w < n && c.pos[w] < |word|
  {
    c.(server := TickGets(Serve(c.server, Message(w, GetsIn(word, c.pos[w]))), w), pos := c.pos[w := c.pos[w] + 1])
  }

  lemma GetServed(word: seq<Request>, c: Run, a: Run, n: nat, w: nat)
    requires Sends(word, c, n, w) && word[c.pos[w]] == Get && a == Served(word, c, n, w)
    requires c.server.adds.local[w] <= c.server.adds.global && c.server.waited[w] == 0
    ensures Core(word, a, n, -1) && a.server.ok && AllAt(a, a.server.adds)
  {
    var q := Queue(word, c, n, w);
    QueueKeeps(word, c, q, n, w);
    var k := |c.server.getCache|;
    assert q.server.getCache[..k] + q.server.getCache[k + 1..] == c.server.getCache;
    assert a.server == ServedAt(q.server, k, n).(ok := a.server.ok);
    WaiterIsBlocked(word, c, q, n, w);
    ActiveFacts(word, q, n, -1, w);
    WaiterLeads(word, q, n, -1, w);
    forall u: nat | Active(q, u)
      ensures q.server.adds.local[u] == q.server.adds.global == q.server.adds.local[w]
    {
      ActiveFacts(word, q, n, -1, u);
    }
    ServeKeeps(word, q, a, n, -1, k);
  }

  lemma WaiterIsBlocked(word: seq<Request>, c: Run, q: Run, n: nat, w: nat)
    requires Queues(word, c, q, n, w) && word[c.pos[w]] == Get && Core(word, q, n, -1)
    requires c.server.waited[w] == 0
    ensures Blocked(q, w) && q.server.adds.local[w] == AddsDue(word, q.server.gets.local[w])
  {
    assert WorkerOk(word, c, n, w, -1);
    QueueGet(word, c, q, n, w, w);
    assert WorkerOk(word, q, n, w, -1);
  }

  lemma GetTaken(word: seq<Request>, c: Run, n: nat, w: nat)
    requires Sends(word, c, n, w) && word[c.pos[w]] == Get
    requires c.server.adds.local[w] <= c.server.adds.global && c.server.waited[w] <= 0
    ensures Inv(word, AfterGet(word, c, n, w), n)
  {
    var a := Served(word, c, n, w);
    var c' := AfterGet(word, c, n, w);
    assert WorkerOk(word, c, n, w, -1);
    GetServed(word, c, a, n, w);
    if Reached(c.server.gets, a.server.gets) {
      GetsLevel(word, a, n);
      DrainAddsKeeps(word, a, c', n, w);
      GetDrainSettles(word, c, a, c', n, w);
    } else {
      assert c' == a;
      GetLeavesSettled(word, c, a, n, w);
    }
  }

  lemma GetsLevel(word: seq<Request>, c: Run, n: nat)
    requires Core(word, c, n, -1) && NobodyAhead(c.server.gets)
    ensures AllAt(c, c.server.gets)
  {
    forall u: nat | Active(c, u)
      ensures c.server.gets.local[u] == c.server.gets.global
    {
      ActiveFacts(word, c, n, -1, u);
    }
  }

  lemma GetDrainSettles(word: seq<Request>, c: Run, a: Run, c': Run, n: nat, w: nat)
    requires Sends(word, c, n, w) && a == Served(word, c, n, w) && AllAt(a, a.server.adds)
    requires Core(word, c', n, -1) && c'.done == a.done
    requires c'.server.getCache == a.server.getCache && c'.server.adds.global == a.server.adds.global
    requires forall v: nat :: v < n ==>
               c'.server.waited[v] == 0
               && c'.server.adds.local[v] == a.server.adds.local[v] + a.server.waited[v]
    ensures Settled(word, c', n)
  {
    forall v: nat | Active(c', v) && Blocked(c', v)
      ensures c'.server.adds.local[v] > c'.server.adds.global
    {
      assert Active(c, v) && Blocked(c, v);
    }
  }

  lemma GetLeavesSettled(word: seq<Request>, c: Run, a: Run, n: nat, w: nat)
    requires Sends(word, c, n, w) && a == Served(word, c, n, w) && Core(word, a, n, -1)
    requires !Reached(c.server.gets, a.server.gets) && c.server.waited[w] == 0
    ensures Settled(word, a, n)
  {
    TickKeepsStep(c.server.gets, w);
    forall v: nat | Active(a, v) && a.server.waited[v] > 0
      ensures a.server.gets.local[v] > a.server.gets.global
    {
      assert v != w && Active(c, v);
      if a.server.gets.global != c.server.gets.global {
        SomebodyAhead(word, a, n);
        ActiveFacts(word, a, n, -1, v);
        assert WorkerOk(word, a, n, v, -1);
      }
    }
    forall v: nat | Active(a, v) && Blocked(a, v)
      ensures a.server.adds.local[v] > a.server.adds.global || a.server.waited[v] > 0
    {
      assert Active(c, v) && Blocked(c, v);
    }
  }

  lemma SomebodyAhead(word: seq<Request>, c: Run, n: nat)
    requires Core(word, c, n, -1) && !NobodyAhead(c.server.gets)
    ensures Level(word, c, n)
  {
    var u: nat :| u < n && c.server.gets.local[u] != INT_MAX && c.server.gets.local[u] > c.server.gets.global;
    assert WorkerOk(word, c, n, u, -1);
    assert AheadOk(word, c, n, u);
  }
}
