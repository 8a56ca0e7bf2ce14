/** A worker finishes: at any moment, and exactly when that does no harm. */
module SyncFinish {
  import opened VectorClocks
  import opened SyncWorkload
  import opened SyncServer
  import opened SyncInvariant
  import opened SyncSteps
  import opened SyncHandlers

  ghost function AfterFinish(c: Run, n: nat, w: nat): Run
    requires WellFormed(c.server, n) && w < n == |c.done|
  {
    Run(OnFinish(c.server, w, n), c.pos, c.done[w := true])
  }

  /** A running worker that may send. */
  ghost predicate Stops(word: seq<Request>, c: Run, n: nat, w: nat)
  {
    Inv(word, c, n) && Active(c, w) && !Blocked(c, w)
  }

  // ---- draining the waiting adds, whatever comes of it ----

  /** How many adds of worker u have been applied after the first k waiting ones. */
  ghost function AppliedAfter(c: Run, u: nat, k: nat): int
    requires u < |c.server.adds.local| && k <= |c.server.addCache|
  {
    c.server.adds.local[u] + |IndicesFirst(c.server.addCache, k, u)|
  }

  /** After the first k waiting adds, all running workers but w have equally many applied. */
  ghost predicate EvenAfter(c: Run, w: int, k: nat)
    requires |c.done| <= |c.server.adds.local| && k <= |c.server.addCache|
  {
    forall u: nat, v: nat :: Active(c, u) && Active(c, v) && u != w && v != w ==>
      AppliedAfter(c, u, k) == AppliedAfter(c, v, k)
  }

  /** At some point on the way the waiting adds complete a round of adds. */
  ghost predicate AddsComplete(c: Run, w: int)
    requires |c.done| <= |c.server.adds.local|
  {
    exists k: nat :: 0 < k <= |c.server.addCache| && EvenAfter(c, w, k)
  }

  lemma AppliedOneLess(word: seq<Request>, c: Run, c': Run, n: nat, u: nat, k: nat)
    requires Applies(word, c, c', n) && u < n && k < |c.server.addCache|
    ensures |c'.server.adds.local| == n && c'.server.addCache == c.server.addCache[1..]
    ensures AppliedAfter(c', u, k) == AppliedAfter(c, u, k + 1)
  {
    var m, rest := c.server.addCache[0], c.server.addCache[1..];
    assert c.server.addCache == [m] + rest;
    IndicesSuffix([m], rest, k, u);
    IndicesOne(m, u);
  }

  lemma EvenOneLess(word: seq<Request>, c: Run, c': Run, n: nat, k: nat)
    requires Applies(word, c, c', n) && k < |c.server.addCache|
    ensures |c'.server.adds.local| == n && c'.server.addCache == c.server.addCache[1..]
    ensures EvenAfter(c', -1, k) <==> EvenAfter(c, -1, k + 1)
  {
    forall u: nat | u < n
      ensures AppliedAfter(c', u, k) == AppliedAfter(c, u, k + 1)
    {
      AppliedOneLess(word, c, c', n, u, k);
    }
    assert forall u: nat :: Active(c', u) ==> AppliedAfter(c', u, k) == AppliedAfter(c, u, k + 1);
    assert forall u: nat :: Active(c', u) <==> Active(c, u);
  }

  /** An add completes a round exactly if afterwards all running workers have equally many. */
  lemma ReachedMeansEven(word: seq<Request>, c: Run, c': Run, n: nat)
    requires Applies(word, c, c', n) && Core(word, c', n, -1)
    ensures Reached(c.server.adds, c'.server.adds) <==> EvenAfter(c', -1, 0)
  {
    var v := c.server.addCache[0].worker;
    if Reached(c.server.adds, c'.server.adds) {
      ReachedMeansLevel(word, c', n, -1);
    }
    if EvenAfter(c', -1, 0) {
      EvenMeansReached(word, c, c', n, v);
    }
  }

  lemma EvenMeansReached(word: seq<Request>, c: Run, c': Run, n: nat, v: nat)
    requires Applies(word, c, c', n) && Core(word, c', n, -1) && v == c.server.addCache[0].worker
    requires EvenAfter(c', -1, 0)
    ensures Reached(c.server.adds, c'.server.adds)
  {
    var x := MinAt(c'.server.adds.local);
    ActiveFacts(word, c, n, -1, v);
    ActiveFacts(word, c', n, -1, v);
    assert WorkerOk(word, c', n, x, -1);
    assert AppliedAfter(c', x, 0) == AppliedAfter(c', v, 0);
    forall u: nat | u < n
      ensures c'.server.adds.local[u] == INT_MAX || c'.server.adds.local[u] <= c'.server.adds.global
    {
      assert WorkerOk(word, c', n, u, -1);
      assert Active(c', u) ==> AppliedAfter(c', u, 0) == AppliedAfter(c', v, 0);
    }
  }

  lemma AddsCompleteStep(word: seq<Request>, c: Run, c': Run, n: nat)
    requires Applies(word, c, c', n) && Core(word, c', n, -1)
    ensures AddsComplete(c, -1) <==> EvenAfter(c, -1, 1) || AddsComplete(c', -1)
  {
    if AddsComplete(c, -1) && !EvenAfter(c, -1, 1) {
      var k: nat :| 0 < k <= |c.server.addCache| && EvenAfter(c, -1, k);
      EvenOneLess(word, c, c', n, k - 1);
      assert EvenAfter(c', -1, k - 1);
    }
    if AddsComplete(c', -1) {
      var k: nat :| 0 < k <= |c'.server.addCache| && EvenAfter(c', -1, k);
      EvenOneLess(word, c, c', n, k);
      assert EvenAfter(c, -1, k + 1);
    }
  }

  /** Applying all waiting adds keeps the core invariant; a check fails exactly if they complete a
      round of adds on the way. */
  lemma {:induction false} DrainAddsExactly(word: seq<Request>, c: Run, c': Run, n: nat)
    requires Core(word, c, n, -1) && Shape(word, c, n) && AllAt(c, c.server.gets)
    requires c' == c.(server := ApplyAllCached(c.server, n))
    ensures Core(word, c', n, -1) && c'.server.addCache == []
    ensures c'.server.getCache == c.server.getCache
    ensures c'.server.ok <==> c.server.ok && !AddsComplete(c, -1)
    decreases |c.server.addCache|
  {
    if c.server.addCache != [] {
      var c1 := c.(server := ApplyCached(c.server, n));
      OldestApplies(word, c, c1, n);
      ApplyKeeps(word, c, c1, n);
      DrainAddsExactly(word, c1, c', n);
      ReachedMeansEven(word, c, c1, n);
      EvenOneLess(word, c, c1, n, 0);
      AddsCompleteStep(word, c, c1, n);
    }
  }

  // ---- leaving the add clock ----

  /** The finisher has left the add clock. */
  ghost function Left(c: Run, n: nat, w: nat): Run
    requires WellFormed(c.server, n) && w < n == |c.done|
  {
    Run(c.server.(adds := Retire(c.server.adds, w)), c.pos, c.done[w := true])
  }

  lemma FinisherLeaves(word: seq<Request>, c: Run, d: Run, n: nat, w: nat)
    requires Stops(word, c, n, w) && c.server.waited[w] == 0 && d == Left(c, n, w)
    ensures Core(word, d, n, w) && d.server.ok && !Blocked(d, w)
    ensures d.server.adds.global >= c.server.adds.global
    ensures d.server.adds.global != c.server.adds.global ==> c.server.adds.local[w] == c.server.adds.global
  {
    LeaveAddsKeeps(word, c, d, n, w);
    ActiveFacts(word, c, n, -1, w);
    RetireKeepsStep(c.server.adds, w);
  }

  lemma SomebodyIsLast(word: seq<Request>, c: Run, n: nat, w: nat) returns (x: nat)
    requires Core(word, c, n, -1) && Active(c, w)
    ensures Active(c, x) && c.server.gets.local[x] == c.server.gets.global
  {
    x := MinAt(c.server.gets.local);
    ActiveFacts(word, c, n, -1, w);
    assert WorkerOk(word, c, n, x, -1);
  }

  /** If leaving moves the add clock, nobody had been ahead. */
  lemma LeavingFindsNobodyAhead(word: seq<Request>, c: Run, d: Run, n: nat, w: nat)
    requires Stops(word, c, n, w) && d == Left(c, n, w) && d.server.adds.global > c.server.adds.global
    ensures AllAt(c, c.server.gets)
  {
    ActiveFacts(word, c, n, -1, w);
    RetireKeepsStep(c.server.adds, w);
    var x := SomebodyIsLast(word, c, n, w);
    if c.server.adds.local[w] != Due(word, c) {
      NobodyAheadIfNotLevel(word, c, n, w);
    } else {
      forall u: nat | Active(c, u)
        ensures c.server.gets.local[u] == c.server.gets.global
      {
        LevelHoldsTheClock(word, c, d, n, w, u, x);
      }
    }
  }

  lemma LevelHoldsTheClock(word: seq<Request>, c: Run, d: Run, n: nat, w: nat, u: nat, x: nat)
    requires Stops(word, c, n, w) && d == Left(c, n, w) && d.server.adds.global > c.server.adds.global
    requires c.server.adds.local[w] == c.server.adds.global == Due(word, c)
    requires Active(c, u) && Active(c, x) && c.server.gets.local[x] == c.server.gets.global
    ensures c.server.gets.local[u] == c.server.gets.global
  {
    assert AheadOk(word, c, n, u);
    ActiveFacts(word, c, n, -1, u);
    ActiveFacts(word, c, n, -1, x);
    if u != w {
      RetireBound(c.server.adds, w, u);
    }
    if x != w {
      RetireBound(c.server.adds, w, x);
    }
  }

  /** What holds between leaving the add clock and leaving the get clock. */
  ghost predicate Between(word: seq<Request>, c: Run, n: nat, w: nat)
  {
    && Core(word, c, n, w) && Shape(word, c, n) && Settled(word, c, n) && c.server.ok
    && w < n && c.done[w]
  }

  lemma LeavesQuietly(word: seq<Request>, c: Run, d: Run, n: nat, w: nat)
    requires Stops(word, c, n, w) && c.server.waited[w] == 0 && d == Left(c, n, w)
    requires !Reached(c.server.adds, d.server.adds)
    ensures Between(word, d, n, w)
  {
    FinisherLeaves(word, c, d, n, w);
    forall v: nat | Active(d, v) && Blocked(d, v)
      ensures d.server.adds.local[v] > d.server.adds.global || d.server.waited[v] > 0
    {
      assert Active(c, v) && Blocked(c, v);
      StillWaiting(word, c, d, n, w, v);
    }
    forall v: nat | Active(d, v) && d.server.waited[v] > 0
      ensures d.server.gets.local[v] > d.server.gets.global
    {
      assert Active(c, v);
    }
  }

  lemma LeavesAndAnswers(word: seq<Request>, c: Run, d: Run, e: Run, n: nat, w: nat)
    requires Stops(word, c, n, w) && c.server.waited[w] == 0 && d == Left(c, n, w)
    requires Reached(c.server.adds, d.server.adds)
    requires e == d.(server := RetireAdds(c.server, w, n))
    ensures Between(word, e, n, w) && e.server.addCache == [] && e.server.getCache == []
    ensures AllAt(c, c.server.gets) && c.server.addCache == []
  {
    FinisherLeaves(word, c, d, n, w);
    LeavingFindsNobodyAhead(word, c, d, n, w);
    NobodyAheadNothingWaits(word, c, n);
    ReachedMeansLevel(word, d, n, w);
    assert d.server.(ok := d.server.ok && d.server.addCache == []) == d.server;
    DrainGetsKeeps(word, d, e, n, w, w);
    DrainedIsSettled(word, e, n, w);
  }

  // ---- leaving the get clock ----

  /** Leaving the get clock without completing a round of gets. */
  lemma LeavesGetsQuietly(word: seq<Request>, e: Run, g: Run, n: nat, w: nat)
    requires Between(word, e, n, w) && g == e.(server := e.server.(gets := Retire(e.server.gets, w)))
    requires !Reached(e.server.gets, g.server.gets)
    ensures Inv(word, g, n)
  {
    LeaveGetsKeeps(word, e, g, n, w);
    LeaveGetsShape(word, e, g, n, w);
    forall v: nat | Active(g, v) && g.server.waited[v] > 0
      ensures g.server.gets.local[v] > g.server.gets.global
    {
      assert Active(e, v) && v != w;
      if g.server.gets.global != e.server.gets.global {
        SomebodyAhead(word, g, n);
        ActiveFacts(word, g, n, -1, v);
        assert WorkerOk(word, g, n, v, -1);
      }
    }
    forall v: nat | Active(g, v) && Blocked(g, v)
      ensures g.server.adds.local[v] > g.server.adds.global || g.server.waited[v] > 0
    {
      assert Active(e, v) && Blocked(e, v);
    }
  }

  lemma AddsCompleteAlike(c: Run, g: Run)
    requires |c.done| <= |c.server.adds.local|
    requires g.done == c.done && g.server.adds == c.server.adds && g.server.addCache == c.server.addCache
    ensures AddsComplete(c, -1) <==> AddsComplete(g, -1)
  {
    forall k: nat | k <= |c.server.addCache|
      ensures EvenAfter(c, -1, k) <==> EvenAfter(g, -1, k)
    {
      assert forall u: nat :: Active(g, u) <==> Active(c, u);
      assert forall u: nat :: Active(g, u) ==> AppliedAfter(g, u, k) == AppliedAfter(c, u, k);
    }
  }

  /** Completing a round of gets by leaving it: harmless exactly if no get waits and the waiting adds
      do not complete a round of adds. */
  lemma LeavesGetsLast(word: seq<Request>, e: Run, g: Run, f: Run, n: nat, w: nat)
    requires Between(word, e, n, w) && g == e.(server := e.server.(gets := Retire(e.server.gets, w)))
    requires Reached(e.server.gets, g.server.gets) && f == e.(server := RetireGets(e.server, w, n))
    ensures Inv(word, f, n) <==> e.server.getCache == [] && !AddsComplete(g, -1)
    ensures f.server.ok <==> e.server.getCache == [] && !AddsComplete(g, -1)
  {
    var h := g.(server := g.server.(ok := g.server.ok && g.server.getCache == []));
    LeaveGetsKeeps(word, e, h, n, w);
    GetsLevel(word, h, n);
    assert f == h.(server := ApplyAllCached(h.server, n));
    DrainAddsExactly(word, h, f, n);
    AddsCompleteAlike(g, h);
    if e.server.getCache == [] {
      DrainedIsSettled(word, f, n, -1);
    }
  }

  // ---- the exact condition ----

  /** Retiring w does not complete the round of gets while a get waits, or while the waiting adds would
      complete a round of adds. */
  ghost predicate FinishIsSafe(c: Run, w: nat)
    requires w < |c.server.gets.local| && |c.done| <= |c.server.adds.local|
  {
    Reached(c.server.gets, Retire(c.server.gets, w)) ==> c.server.getCache == [] && !AddsComplete(c, w)
  }

  lemma EvenWithout(c: Run, g: Run, w: nat, k: nat)
    requires w < |c.done| <= |c.server.adds.local| && k <= |c.server.addCache|
    requires g.done == c.done[w := true] && |g.server.adds.local| == |c.server.adds.local|
    requires forall u: nat :: u < |c.done| && u != w ==> g.server.adds.local[u] == c.server.adds.local[u]
    requires g.server.addCache == c.server.addCache
    ensures EvenAfter(c, w, k) <==> EvenAfter(g, -1, k)
  {
    assert forall u: nat :: Active(g, u) <==> Active(c, u) && u != w;
    assert forall u: nat :: Active(g, u) ==> AppliedAfter(g, u, k) == AppliedAfter(c, u, k);
  }

  lemma CompleteWithout(c: Run, g: Run, w: nat)
    requires w < |c.done| <= |c.server.adds.local|
    requires g.done == c.done[w := true] && |g.server.adds.local| == |c.server.adds.local|
    requires forall u: nat :: u < |c.done| && u != w ==> g.server.adds.local[u] == c.server.adds.local[u]
    requires g.server.addCache == c.server.addCache
    ensures AddsComplete(c, w) <==> AddsComplete(g, -1)
  {
    forall k: nat | k <= |c.server.addCache|
      ensures EvenAfter(c, w, k) <==> EvenAfter(g, -1, k)
    {
      EvenWithout(c, g, w, k);
    }
  }

  /** If leaving the add clock answers gets, leaving the get clock is harmless. */
  lemma AnsweredIsSafe(word: seq<Request>, c: Run, n: nat, w: nat)
    requires Stops(word, c, n, w) && AllAt(c, c.server.gets) && c.server.addCache == []
    ensures FinishIsSafe(c, w)
  {
    if Reached(c.server.gets, Retire(c.server.gets, w)) {
      forall v: nat | v < n
        ensures Indices(c.server.getCache, v) == []
      {
        assert WorkerOk(word, c, n, v, -1);
        if Active(c, v) && v != w {
          RetireBound(c.server.gets, w, v);
        }
      }
      NobodyListed(c.server.getCache, n);
    }
  }

  /** With none of its adds waiting, a finisher fails a check at once or does no harm at all. */
  lemma FinishWithNothingWaiting(word: seq<Request>, c: Run, n: nat, w: nat)
    requires Stops(word, c, n, w) && c.server.waited[w] == 0
    ensures Inv(word, AfterFinish(c, n, w), n) <==> FinishIsSafe(c, w)
    ensures AfterFinish(c, n, w).server.ok <==> FinishIsSafe(c, w)
  {
    var d := Left(c, n, w);
    var e := d.(server := RetireAdds(c.server, w, n));
    var g := e.(server := e.server.(gets := Retire(e.server.gets, w)));
    var f := AfterFinish(c, n, w);
    if Reached(c.server.adds, d.server.adds) {
      LeavesAndAnswers(word, c, d, e, n, w);
      AnsweredIsSafe(word, c, n, w);
    } else {
      assert e == d;
      LeavesQuietly(word, c, d, n, w);
      CompleteWithout(c, g, w);
    }
    if Reached(e.server.gets, g.server.gets) {
      LeavesGetsLast(word, e, g, f, n, w);
    } else {
      LeavesGetsQuietly(word, e, g, n, w);
      assert f == g;
    }
  }

  /** With adds of its own waiting, a finisher moves no clock. */
  lemma StrandingMovesNoClock(word: seq<Request>, c: Run, n: nat, w: nat)
    requires Stops(word, c, n, w) && c.server.waited[w] > 0
    ensures Retire(c.server.adds, w).global == c.server.adds.global
    ensures Retire(c.server.gets, w).global == c.server.gets.global
  {
    var x := SomebodyIsLast(word, c, n, w);
    var y := MinAt(c.server.adds.local);
    assert WorkerOk(word, c, n, y, -1) && AheadOk(word, c, n, w);
    ActiveFacts(word, c, n, -1, w);
    ActiveFacts(word, c, n, -1, x);
    RetireKeepsStep(c.server.adds, w);
    RetireKeepsStep(c.server.gets, w);
    RetireBound(c.server.adds, w, x);
    RetireBound(c.server.gets, w, x);
  }

  /** Its adds are stranded in the cache. */
  lemma FinishStrandsAdds(word: seq<Request>, c: Run, n: nat, w: nat)
    requires Stops(word, c, n, w) && c.server.waited[w] > 0
    ensures AfterFinish(c, n, w).server
         == c.server.(adds := Retire(c.server.adds, w), gets := Retire(c.server.gets, w))
    ensures Indices(AfterFinish(c, n, w).server.addCache, w) != []
    ensures !Inv(word, AfterFinish(c, n, w), n)
  {
    StrandingMovesNoClock(word, c, n, w);
    assert WorkerOk(word, c, n, w, -1);
    var f := AfterFinish(c, n, w);
    assert f.server == c.server.(adds := Retire(c.server.adds, w), gets := Retire(c.server.gets, w));
    assert !DoneWithoutAdds(f, w);
    assert Inv(word, f, n) ==> WorkerOk(word, f, n, w, -1);
  }

  ghost predicate DoneWithoutAdds(c: Run, w: nat)
  {
    Indices(c.server.addCache, w) == []
  }

  /** A worker that has leave to send may finish, at whatever point of the word, exactly if none of its
      adds waits and retiring it completes no round that a check forbids. */
  lemma FinishExactly(word: seq<Request>, c: Run, n: nat, w: nat)
    requires Stops(word, c, n, w)
    ensures Inv(word, AfterFinish(c, n, w), n) <==> c.server.waited[w] == 0 && FinishIsSafe(c, w)
  {
    assert WorkerOk(word, c, n, w, -1);
    if c.server.waited[w] == 0 {
      FinishWithNothingWaiting(word, c, n, w);
    } else {
      FinishStrandsAdds(word, c, n, w);
    }
  }

  /** An add stranded by its worker's finish fails the server as soon as it is applied. */
  lemma {:induction false} StrandedAddFails(s: State, n: nat, w: nat)
    requires WellFormed(s, n) && w < n
    requires s.adds.local[w] >= INT_MAX && Indices(s.addCache, w) != []
    ensures !ApplyAllCached(s, n).ok
    decreases |s.addCache|
  {
    var t := ApplyCached(s, n);
    if s.addCache[0].worker == w {
      FailedStaysFailed(t, n);
    } else {
      assert s.addCache == [s.addCache[0]] + s.addCache[1..];
      IndicesCat([s.addCache[0]], s.addCache[1..], w);
      IndicesOne(s.addCache[0], w);
      StrandedAddFails(t, n, w);
    }
  }

  lemma {:induction false} FailedStaysFailed(s: State, n: nat)
    requires WellFormed(s, n) && !s.ok
    ensures !ApplyAllCached(s, n).ok
    decreases |s.addCache|
  {
    if s.addCache != [] {
      FailedStaysFailed(ApplyCached(s, n), n);
    }
  }

  // ---- between two rounds ----

  /** Between rounds, all of a worker's adds have been applied. */
  lemma FinisherIsThrough(word: seq<Request>, c: Run, n: nat, w: nat)
    requires Stops(word, c, n, w) && c.pos[w] <= |word| && Boundary(word, c.pos[w])
    ensures c.server.waited[w] == 0 && c.server.adds.local[w] == AddsIn(word, c.pos[w])
    ensures c.server.gets.local[w] == GetsIn(word, c.pos[w])
  {
    var p := c.pos[w];
    assert WorkerOk(word, c, n, w, -1) && AheadOk(word, c, n, w);
    ActiveFacts(word, c, n, -1, w);
    LastSentIsDue(word, p);
  }

  /** Between rounds, the adds sent are those due at the last get. */
  lemma LastSentIsDue(word: seq<Request>, p: nat)
    requires p <= |word| && Boundary(word, p)
    ensures p == 0 ==> AddsIn(word, p) == GetsIn(word, p) == 0
    ensures p > 0 ==> GetsIn(word, p) > 0 && AddsDue(word, GetsIn(word, p) - 1) == AddsIn(word, p)
  {
    if p > 0 {
      DueAtGet(word, p - 1);
    }
  }

  /** If the finisher has the fewest answers, everybody has: a get that it will not issue comes after
      an add that it has not sent. */
  lemma NobodyPassesFinisher(word: seq<Request>, c: Run, n: nat, w: nat)
    requires Stops(word, c, n, w) && c.pos[w] <= |word| && Boundary(word, c.pos[w])
    requires c.server.gets.local[w] == c.server.gets.global
    ensures AllAt(c, c.server.gets)
  {
    var p := c.pos[w];
    FinisherIsThrough(word, c, n, w);
    if p < |word| {
      DueAfterAdd(word, p);
      NobodyAheadIfNotLevel(word, c, n, w);
    } else {
      forall v: nat | Active(c, v)
        ensures c.server.gets.local[v] == c.server.gets.global
      {
        CountsGrow(word, c.pos[v], p);
        assert WorkerOk(word, c, n, v, -1);
        ActiveFacts(word, c, n, -1, v);
      }
    }
  }

  /** Between two rounds a worker may always finish. */
  lemma BoundaryIsSafe(word: seq<Request>, c: Run, n: nat, w: nat)
    requires Stops(word, c, n, w) && c.pos[w] <= |word| && Boundary(word, c.pos[w])
    ensures c.server.waited[w] == 0 && FinishIsSafe(c, w)
  {
    FinisherIsThrough(word, c, n, w);
    ActiveFacts(word, c, n, -1, w);
    RetireKeepsStep(c.server.gets, w);
    if Reached(c.server.gets, Retire(c.server.gets, w)) {
      NobodyPassesFinisher(word, c, n, w);
      NobodyAheadNothingWaits(word, c, n);
      AnsweredIsSafe(word, c, n, w);
    }
  }
}
