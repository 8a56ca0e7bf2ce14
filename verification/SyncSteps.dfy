/** The elementary steps the handlers are made of, and that each keeps the core of the invariant. */
module SyncSteps {
  import opened VectorClocks
  import opened SyncWorkload
  import opened SyncServer
  import opened SyncInvariant

  // ---- a request comes in and waits ----

  ghost predicate Queues(word: seq<Request>, c: Run, c': Run, n: nat, w: nat)
  {
    Core(word, c, n, -1) && Active(c, w) && !Blocked(c, w) && Queued(word, c, c', n, w)
  }

  ghost predicate Queued(word: seq<Request>, c: Run, c': Run, n: nat, w: nat)
  {
    && Shape(word, c, n) && w < n && c.pos[w] < |word|
    && c' == c.(pos := c.pos[w := c.pos[w] + 1], server := c'.server)
    && c'.server ==
       if word[c.pos[w]] == Add then
         c.server.(addCache := c.server.addCache + [Message(w, AddsIn(word, c.pos[w]))],
                   waited := c.server.waited[w := c.server.waited[w] + 1])
       else c.server.(getCache := c.server.getCache + [Message(w, GetsIn(word, c.pos[w]))])
  }

  lemma QueueAdd(word: seq<Request>, c: Run, c': Run, n: nat, w: nat, v: nat)
    requires Queued(word, c, c', n, w) && v < n && word[c.pos[w]] == Add && Accounted(word, c, n, v)
    ensures Shape(word, c', n) && Accounted(word, c', n, v)
    ensures Indices(c'.server.addCache, v) == [] ==> v != w && Indices(c.server.addCache, v) == []
    ensures v != w ==> Indices(c'.server.addCache, v) == Indices(c.server.addCache, v)
  {
    var m := Message(w, AddsIn(word, c.pos[w]));
    IndicesOne(m, v);
    IndicesCat(c.server.addCache, [m], v);
    assert c'.server.addCache == c.server.addCache + [m] && c'.server.log == c.server.log;
    if v != w {
      assert Indices(c'.server.addCache, v) == Indices(c.server.addCache, v) && c'.pos[v] == c.pos[v];
    } else {
      assert c'.pos[v] == c.pos[v] + 1 && AddsIn(word, c'.pos[v]) == m.index + 1;
      UptoMore(Indices(c.server.log, v), Indices(c.server.addCache, v), m.index);
    }
  }

  lemma QueueGet(word: seq<Request>, c: Run, c': Run, n: nat, w: nat, v: nat)
    requires Queued(word, c, c', n, w) && v < n && word[c.pos[w]] == Get && Accounted(word, c, n, v)
    ensures Shape(word, c', n) && Accounted(word, c', n, v)
    ensures v == w ==> |Indices(c'.server.getCache, v)| == |Indices(c.server.getCache, v)| + 1
    ensures v != w ==> Indices(c'.server.getCache, v) == Indices(c.server.getCache, v)
  {
    var m := Message(w, GetsIn(word, c.pos[w]));
    IndicesOne(m, v);
    IndicesCat(c.server.getCache, [m], v);
    assert c'.server.getCache == c.server.getCache + [m] && c'.server.answers == c.server.answers;
    if v != w {
      assert Indices(c'.server.getCache, v) == Indices(c.server.getCache, v) && c'.pos[v] == c.pos[v];
    } else {
      assert c'.pos[v] == c.pos[v] + 1 && GetsIn(word, c'.pos[v]) == m.index + 1;
      UptoMore(Indices(Gets(c.server.answers), v), Indices(c.server.getCache, v), m.index);
    }
  }

  lemma QueueAddStatus(word: seq<Request>, c: Run, c': Run, n: nat, w: nat, v: nat)
    requires Queued(word, c, c', n, w) && v < n && StatusOk(word, c, n, v, -1)
    requires Active(c, w) && !Blocked(c, w) && word[c.pos[w]] == Add && Shape(word, c', n)
    requires v != w ==> Indices(c'.server.addCache, v) == Indices(c.server.addCache, v)
    ensures StatusOk(word, c', n, v, -1)
  {
    assert c'.server.getCache == c.server.getCache;
    if v == w {
      assert ActiveOk(word, c', n, v);
    } else {
      assert c'.server.waited[v] == c.server.waited[v] && c'.pos[v] == c.pos[v];
    }
  }

  lemma QueueGetStatus(word: seq<Request>, c: Run, c': Run, n: nat, w: nat, v: nat)
    requires Queued(word, c, c', n, w) && v < n && StatusOk(word, c, n, v, -1)
    requires Active(c, w) && !Blocked(c, w) && word[c.pos[w]] == Get && Shape(word, c', n)
    requires v == w ==> |Indices(c'.server.getCache, v)| == 1
    requires v != w ==> Indices(c'.server.getCache, v) == Indices(c.server.getCache, v)
    ensures StatusOk(word, c', n, v, -1)
  {
    assert c'.server.addCache == c.server.addCache;
    if v == w {
      DueAtGet(word, c.pos[w]);
      assert ActiveOk(word, c', n, v);
    } else {
      assert c'.pos[v] == c.pos[v];
    }
  }

  lemma QueueWorker(word: seq<Request>, c: Run, c': Run, n: nat, w: nat, v: nat)
    requires Queued(word, c, c', n, w) && v < n && WorkerOk(word, c, n, v, -1)
    requires Active(c, w) && !Blocked(c, w)
    ensures Shape(word, c', n) && WorkerOk(word, c', n, v, -1)
  {
    if word[c.pos[w]] == Add {
      QueueAdd(word, c, c', n, w, v);
      QueueAddStatus(word, c, c', n, w, v);
    } else {
      QueueGet(word, c, c', n, w, v);
      QueueGetStatus(word, c, c', n, w, v);
    }
  }

  lemma QueueAnswer(word: seq<Request>, c: Run, c': Run, n: nat, w: nat, a: Answer)
    requires Queues(word, c, c', n, w) && AnswerOk(word, c, n, a)
    ensures Shape(word, c', n) && AnswerOk(word, c', n, a)
  {
    forall v: nat | v < n
      ensures ContentOk(word, c', n, a.log, a.get.index, v)
    {
      assert ContentOk(word, c, n, a.log, a.get.index, v);
      CountsGrow(word, c.pos[w], c'.pos[w]);
    }
    assert Level(word, c, n) ==> Level(word, c', n);
  }

  lemma QueueKeeps(word: seq<Request>, c: Run, c': Run, n: nat, w: nat)
    requires Queues(word, c, c', n, w)
    ensures Core(word, c', n, -1)
  {
    forall v: nat | v < n
      ensures WorkerOk(word, c', n, v, -1)
    {
      QueueWorker(word, c, c', n, w, v);
    }
    forall v: nat | Active(c', v)
      ensures AheadOk(word, c', n, v)
    {
      assert AheadOk(word, c, n, v);
      assert Level(word, c, n) ==> Level(word, c', n);
    }
    forall i: nat | i < |c'.server.answers|
      ensures AnswerOk(word, c', n, c'.server.answers[i])
    {
      QueueAnswer(word, c, c', n, w, c.server.answers[i]);
    }
  }

  // ---- a get is answered ----

  ghost predicate Serves(word: seq<Request>, c: Run, c': Run, n: nat, leaver: int, k: nat)
  {
    && Core(word, c, n, leaver) && Shape(word, c, n) && ServedOne(c, c', n, k)
    && Active(c, c.server.getCache[k].worker)
    && 0 <= c.server.gets.local[c.server.getCache[k].worker]
    && forall u: nat :: Active(c, u) ==>
         c.server.adds.local[u] == AddsDue(word, c.server.gets.local[c.server.getCache[k].worker])
  }

  ghost predicate ServedOne(c: Run, c': Run, n: nat, k: nat)
  {
    && WellFormed(c.server, n) && k < |c.server.getCache|
    && c' == c.(server := c'.server)
    && c'.server == ServedAt(c.server, k, n).(ok := c'.server.ok)
  }

  ghost function ServedAt(s: State, k: nat, n: nat): State
    requires WellFormed(s, n) && k < |s.getCache|
  {
    var m := s.getCache[k];
    TickGets(Serve(s.(getCache := s.getCache[..k] + s.getCache[k + 1..]), m), m.worker)
  }

  lemma ServeShape(word: seq<Request>, c: Run, c': Run, n: nat, k: nat)
    requires Shape(word, c, n) && ServedOne(c, c', n, k)
    ensures Shape(word, c', n) && c.server.gets.global <= c'.server.gets.global
    ensures c'.server.gets.global <= c.server.gets.local[c.server.getCache[k].worker] + 1
  {
    TickKeepsStep(c.server.gets, c.server.getCache[k].worker);
  }

  /** A worker has at most one get waiting, and that is its next one. */
  lemma ServedIsNext(word: seq<Request>, c: Run, c': Run, n: nat, k: nat)
    requires Shape(word, c, n) && ServedOne(c, c', n, k)
    requires var v := c.server.getCache[k].worker;
             Accounted(word, c, n, v) && |Indices(c.server.getCache, v)| <= 1
    ensures var m := c.server.getCache[k];
            && Indices(c.server.getCache, m.worker) == [m.index] && Indices(c'.server.getCache, m.worker) == []
            && m.index == GetsIn(word, c.pos[m.worker]) - 1
  {
    var m := c.server.getCache[k];
    IndicesSplit(c.server.getCache, k, m.worker);
    IndicesOne(m, m.worker);
    OnlyNext(Indices(Gets(c.server.answers), m.worker), Indices(c.server.getCache, m.worker),
             GetsIn(word, c.pos[m.worker]));
  }

  /** The get at position k is the next one of its worker, and only what is due has been applied. */
  lemma ServeFacts(word: seq<Request>, c: Run, c': Run, n: nat, leaver: int, k: nat)
    requires Serves(word, c, c', n, leaver, k)
    ensures var m := c.server.getCache[k];
            && Indices(c.server.getCache, m.worker) == [m.index] && Indices(c'.server.getCache, m.worker) == []
            && m.index == c.server.gets.local[m.worker] < INT_MAX
            && c.server.gets.global <= m.index && AddsDue(word, m.index) == Due(word, c)
            && Level(word, c, n)
    ensures Shape(word, c', n) && c.server.gets.global <= c'.server.gets.global
    ensures c'.server.gets.global <= c.server.gets.local[c.server.getCache[k].worker] + 1
  {
    var v := c.server.getCache[k].worker;
    ActiveFacts(word, c, n, leaver, v);
    assert WorkerOk(word, c, n, v, leaver);
    ServeShape(word, c, c', n, k);
    ServedIsNext(word, c, c', n, k);
  }

  lemma OnlyNext(a: seq<nat>, b: seq<nat>, k: nat)
    requires a + b == Upto(k) && |b| == 1
    ensures b == [k - 1]
  {
    assert (a + b)[|a|] == b[0];
  }

  lemma GetsOfServed(answers: seq<Answer>, a: Answer, w: nat)
    ensures Indices(Gets(answers + [a]), w)
         == Indices(Gets(answers), w) + if a.get.worker == w then [a.get.index] else []
  {
    assert Gets(answers + [a]) == Gets(answers) + [a.get];
    IndicesCat(Gets(answers), [a.get], w);
    IndicesOne(a.get, w);
  }

  lemma ServeAccounted(word: seq<Request>, c: Run, c': Run, n: nat, k: nat, w: nat)
    requires Shape(word, c, n) && Shape(word, c', n) && ServedOne(c, c', n, k) && w < n
    requires Accounted(word, c, n, w)
    requires var m := c.server.getCache[k]; w == m.worker ==>
               Indices(c.server.getCache, w) == [m.index] && Indices(c'.server.getCache, w) == []
    ensures Accounted(word, c', n, w)
    ensures w != c.server.getCache[k].worker ==> Indices(c'.server.getCache, w) == Indices(c.server.getCache, w)
  {
    var m := c.server.getCache[k];
    GetsOfServed(c.server.answers, Answer(m, c.server.log), w);
    assert c'.server.answers == c.server.answers + [Answer(m, c.server.log)];
    if w == m.worker {
      assert Indices(Gets(c'.server.answers), w) == Indices(Gets(c.server.answers), w) + Indices(c.server.getCache, w);
    } else {
      IndicesSplit(c.server.getCache, k, w);
      IndicesOne(m, w);
      assert Indices(Gets(c'.server.answers), w) == Indices(Gets(c.server.answers), w);
      assert Indices(c'.server.getCache, w) == Indices(c.server.getCache, w);
    }
  }

  lemma ServeStatus(word: seq<Request>, c: Run, c': Run, n: nat, leaver: int, k: nat, w: nat)
    requires Shape(word, c, n) && Shape(word, c', n) && ServedOne(c, c', n, k) && w < n
    requires StatusOk(word, c, n, w, leaver) && Due(word, c) <= Due(word, c')
    requires var m := c.server.getCache[k]; w == m.worker ==>
               !c.done[w] && |Indices(c.server.getCache, w)| == 1 && Indices(c'.server.getCache, w) == []
    requires w != c.server.getCache[k].worker ==> Indices(c'.server.getCache, w) == Indices(c.server.getCache, w)
    ensures StatusOk(word, c', n, w, leaver)
  {
  }

  lemma ServeWorker(word: seq<Request>, c: Run, c': Run, n: nat, leaver: int, k: nat, w: nat)
    requires Serves(word, c, c', n, leaver, k) && w < n
    ensures Shape(word, c', n) && WorkerOk(word, c', n, w, leaver)
  {
    ServeFacts(word, c, c', n, leaver, k);
    assert WorkerOk(word, c, n, w, leaver);
    ServeAccounted(word, c, c', n, k, w);
    DueGrows(word, c.server.gets.global, c'.server.gets.global);
    ServeStatus(word, c, c', n, leaver, k, w);
  }

  lemma LevelStays(word: seq<Request>, c: Run, c': Run, n: nat)
    requires Shape(word, c, n) && Shape(word, c', n) && Level(word, c, n)
    requires c.done == c'.done && c.server.adds == c'.server.adds && Due(word, c) == Due(word, c')
    ensures Level(word, c', n)
  {
  }

  lemma ServeAhead(word: seq<Request>, c: Run, c': Run, n: nat, leaver: int, k: nat, w: nat)
    requires Serves(word, c, c', n, leaver, k) && Active(c, w)
    ensures Shape(word, c', n) && AheadOk(word, c', n, w)
  {
    ServeFacts(word, c, c', n, leaver, k);
    assert AheadOk(word, c, n, w);
    if c'.server.gets.local[w] > c'.server.gets.global {
      DueBetween(word, c.server.gets.global, c'.server.gets.global, c'.server.gets.local[w] - 1);
      LevelStays(word, c, c', n);
    }
  }

  lemma ServeCurrent(word: seq<Request>, c: Run, c': Run, n: nat, leaver: int, k: nat, a: Answer)
    requires Serves(word, c, c', n, leaver, k)
    requires CurrentOk(word, c, n, a) || (a.log == c.server.log && a.get == c.server.getCache[k])
    ensures Shape(word, c', n) && CurrentOk(word, c', n, a)
  {
    ServeFacts(word, c, c', n, leaver, k);
    if a.get.index >= c'.server.gets.global {
      DueBetween(word, c.server.gets.global, c'.server.gets.global, a.get.index);
      LevelStays(word, c, c', n);
    }
  }

  lemma ServeContent(word: seq<Request>, c: Run, c': Run, n: nat, leaver: int, k: nat, v: nat)
    requires Serves(word, c, c', n, leaver, k) && v < n
    ensures ContentOk(word, c, n, c.server.log, c.server.getCache[k].index, v)
  {
    ServeFacts(word, c, c', n, leaver, k);
    var m := c.server.getCache[k];
    var log, rest := Indices(c.server.log, v), Indices(c.server.addCache, v);
    var sent := AddsIn(word, c.pos[v]);
    assert WorkerOk(word, c, n, v, leaver);
    assert log == (log + rest)[..|log|] == Upto(sent)[..|log|];
    assert |log| == if AddsDue(word, m.index) <= sent then AddsDue(word, m.index) else sent;
  }

  lemma ServeAnswer(word: seq<Request>, c: Run, c': Run, n: nat, leaver: int, k: nat, i: nat)
    requires Serves(word, c, c', n, leaver, k) && i < |c'.server.answers|
    ensures Shape(word, c', n) && AnswerOk(word, c', n, c'.server.answers[i])
  {
    var a := c'.server.answers[i];
    ServeCurrent(word, c, c', n, leaver, k, a);
    forall v: nat | v < n
      ensures ContentOk(word, c', n, a.log, a.get.index, v)
    {
      if i < |c.server.answers| {
        assert ContentOk(word, c, n, a.log, a.get.index, v);
      } else {
        ServeContent(word, c, c', n, leaver, k, v);
      }
    }
  }

  lemma ServeAgrees(word: seq<Request>, c: Run, c': Run, n: nat, leaver: int, k: nat)
    requires Serves(word, c, c', n, leaver, k)
    ensures AnswersAgree(c'.server.answers)
  {
    ServeFacts(word, c, c', n, leaver, k);
    var fresh' := Answer(c.server.getCache[k], c.server.log);
    forall i: nat | i < |c.server.answers|
      ensures Agree(c.server.answers[i], fresh')
    {
      assert CurrentOk(word, c, n, c.server.answers[i]);
    }
    assert AnswersAgree(c.server.answers);
  }

  lemma ServeKeeps(word: seq<Request>, c: Run, c': Run, n: nat, leaver: int, k: nat)
    requires Serves(word, c, c', n, leaver, k)
    ensures Core(word, c', n, leaver)
  {
    ServeFacts(word, c, c', n, leaver, k);
    forall w: nat | w < n
      ensures Shape(word, c', n) && WorkerOk(word, c', n, w, leaver)
    {
      ServeWorker(word, c, c', n, leaver, k, w);
    }
    forall w: nat | Active(c', w)
      ensures AheadOk(word, c', n, w)
    {
      ServeAhead(word, c, c', n, leaver, k, w);
    }
    forall i: nat | i < |c'.server.answers|
      ensures AnswerOk(word, c', n, c'.server.answers[i])
    {
      ServeAnswer(word, c, c', n, leaver, k, i);
    }
    ServeAgrees(word, c, c', n, leaver, k);
  }

  // ---- an add is applied ----

  ghost predicate Applies(word: seq<Request>, c: Run, c': Run, n: nat)
  {
    && Core(word, c, n, -1) && Shape(word, c, n) && AppliedOne(c, c', n)
    && Active(c, c.server.addCache[0].worker)
    && c.server.adds.local[c.server.addCache[0].worker] < Due(word, c)
  }

  ghost predicate AppliedOne(c: Run, c': Run, n: nat)
  {
    && WellFormed(c.server, n) && c.server.addCache != []
    && c' == c.(server := c'.server)
    && c'.server == AppliedFirst(c.server, n).(ok := c'.server.ok)
  }

  ghost function AppliedFirst(s: State, n: nat): State
    requires WellFormed(s, n) && s.addCache != []
  {
    var m := s.addCache[0];
    TickAdds(Apply(s.(addCache := s.addCache[1..]), m), m.worker)
      .(waited := s.waited[m.worker := s.waited[m.worker] - 1])
  }

  /** Nobody has had an answer that the slowest is still to get. */
  lemma ApplyFacts(word: seq<Request>, c: Run, c': Run, n: nat)
    requires Applies(word, c, c', n)
    ensures !Level(word, c, n) && Shape(word, c', n)
    ensures forall u: nat :: Active(c, u) ==> c.server.gets.local[u] == c.server.gets.global
  {
    var m := c.server.addCache[0];
    forall u: nat | Active(c, u)
      ensures c.server.gets.local[u] == c.server.gets.global
    {
      assert AheadOk(word, c, n, u);
      ActiveFacts(word, c, n, -1, u);
    }
    TickKeepsStep(c.server.adds, m.worker);
  }

  lemma ApplyAccounted(word: seq<Request>, c: Run, c': Run, n: nat, w: nat)
    requires Shape(word, c, n) && Shape(word, c', n) && AppliedOne(c, c', n) && w < n && Accounted(word, c, n, w)
    ensures Accounted(word, c', n, w)
    ensures w != c.server.addCache[0].worker ==> Indices(c'.server.addCache, w) == Indices(c.server.addCache, w)
  {
    var m, rest := c.server.addCache[0], c.server.addCache[1..];
    assert c.server.addCache == [m] + rest;
    IndicesCat([m], rest, w);
    IndicesCat(c.server.log, [m], w);
    IndicesOne(m, w);
    assert c'.server.log == c.server.log + [m] && c'.server.addCache == rest;
    UptoShift(Indices(c.server.log, w), Indices(c.server.addCache, w), Indices([m], w), Indices(rest, w),
              AddsIn(word, c.pos[w]));
  }

  lemma ApplyStatus(word: seq<Request>, c: Run, c': Run, n: nat, w: nat)
    requires Shape(word, c, n) && Shape(word, c', n) && AppliedOne(c, c', n) && w < n
    requires StatusOk(word, c, n, w, -1)
    requires w == c.server.addCache[0].worker ==> !c.done[w] && c.server.adds.local[w] < Due(word, c)
    requires w != c.server.addCache[0].worker ==> Indices(c'.server.addCache, w) == Indices(c.server.addCache, w)
    ensures StatusOk(word, c', n, w, -1)
  {
    assert c'.server.getCache == c.server.getCache;
  }

  lemma ApplyWorker(word: seq<Request>, c: Run, c': Run, n: nat, w: nat)
    requires Applies(word, c, c', n) && w < n
    ensures Shape(word, c', n) && WorkerOk(word, c', n, w, -1)
  {
    ApplyFacts(word, c, c', n);
    assert WorkerOk(word, c, n, w, -1);
    ApplyAccounted(word, c, c', n, w);
    ApplyStatus(word, c, c', n, w);
  }

  lemma ApplyAnswer(word: seq<Request>, c: Run, c': Run, n: nat, a: Answer)
    requires Applies(word, c, c', n) && AnswerOk(word, c, n, a)
    ensures Shape(word, c', n) && AnswerOk(word, c', n, a)
  {
    ApplyFacts(word, c, c', n);
    forall v: nat | v < n
      ensures ContentOk(word, c', n, a.log, a.get.index, v)
    {
      assert ContentOk(word, c, n, a.log, a.get.index, v);
    }
  }

  lemma ApplyKeeps(word: seq<Request>, c: Run, c': Run, n: nat)
    requires Applies(word, c, c', n)
    ensures Core(word, c', n, -1)
  {
    ApplyFacts(word, c, c', n);
    forall w: nat | w < n
      ensures WorkerOk(word, c', n, w, -1)
    {
      ApplyWorker(word, c, c', n, w);
    }
    forall i: nat | i < |c'.server.answers|
      ensures AnswerOk(word, c', n, c'.server.answers[i])
    {
      ApplyAnswer(word, c, c', n, c.server.answers[i]);
    }
  }

  // ---- a worker leaves ----

  ghost predicate LeavesAdds(word: seq<Request>, c: Run, c': Run, n: nat, w: nat)
  {
    && Core(word, c, n, -1) && Active(c, w) && !Blocked(c, w) && c.server.waited[w] == 0
    && c' == Run(c.server.(adds := Retire(c.server.adds, w), ok := c'.server.ok), c.pos, c.done[w := true])
  }

  lemma LeaveAddsShape(word: seq<Request>, c: Run, c': Run, n: nat, w: nat)
    requires LeavesAdds(word, c, c', n, w)
    ensures Shape(word, c', n)
    ensures Level(word, c, n) ==> Level(word, c', n)
  {
    ActiveFacts(word, c, n, -1, w);
    RetireKeepsStep(c.server.adds, w);
  }

  lemma LeaveAddsWorker(word: seq<Request>, c: Run, c': Run, n: nat, w: nat, v: nat)
    requires LeavesAdds(word, c, c', n, w) && v < n
    ensures Shape(word, c', n) && WorkerOk(word, c', n, v, w)
  {
    LeaveAddsShape(word, c, c', n, w);
    ActiveFacts(word, c, n, -1, w);
    assert WorkerOk(word, c, n, v, -1) && WorkerOk(word, c, n, w, -1);
  }

  lemma LeaveAddsAnswer(word: seq<Request>, c: Run, c': Run, n: nat, w: nat, a: Answer)
    requires LeavesAdds(word, c, c', n, w) && AnswerOk(word, c, n, a)
    ensures Shape(word, c', n) && AnswerOk(word, c', n, a)
  {
    LeaveAddsShape(word, c, c', n, w);
    forall v: nat | v < n
      ensures ContentOk(word, c', n, a.log, a.get.index, v)
    {
      assert ContentOk(word, c, n, a.log, a.get.index, v);
    }
  }

  lemma LeaveAddsKeeps(word: seq<Request>, c: Run, c': Run, n: nat, w: nat)
    requires LeavesAdds(word, c, c', n, w)
    ensures Core(word, c', n, w)
  {
    LeaveAddsShape(word, c, c', n, w);
    forall v: nat | v < n
      ensures WorkerOk(word, c', n, v, w)
    {
      LeaveAddsWorker(word, c, c', n, w, v);
    }
    forall v: nat | Active(c', v)
      ensures AheadOk(word, c', n, v)
    {
      assert AheadOk(word, c, n, v);
    }
    forall i: nat | i < |c'.server.answers|
      ensures AnswerOk(word, c', n, c'.server.answers[i])
    {
      LeaveAddsAnswer(word, c, c', n, w, c.server.answers[i]);
    }
  }

  ghost predicate LeavesGets(word: seq<Request>, c: Run, c': Run, n: nat, w: nat)
  {
    && Core(word, c, n, w) && w < n && c.done[w]
    && c' == c.(server := c.server.(gets := Retire(c.server.gets, w), ok := c'.server.ok))
  }

  lemma LeaveGetsShape(word: seq<Request>, c: Run, c': Run, n: nat, w: nat)
    requires LeavesGets(word, c, c', n, w)
    ensures Shape(word, c', n) && c.server.gets.global <= c'.server.gets.global
    ensures Due(word, c) <= Due(word, c')
  {
    assert WorkerOk(word, c, n, w, w);
    RetireKeepsStep(c.server.gets, w);
    DueGrows(word, c.server.gets.global, c'.server.gets.global);
  }

  lemma LeaveGetsWorker(word: seq<Request>, c: Run, c': Run, n: nat, w: nat, v: nat)
    requires LeavesGets(word, c, c', n, w) && v < n
    ensures Shape(word, c', n) && WorkerOk(word, c', n, v, -1)
  {
    LeaveGetsShape(word, c, c', n, w);
    assert WorkerOk(word, c, n, v, w);
  }

  lemma LeaveGetsAhead(word: seq<Request>, c: Run, c': Run, n: nat, w: nat, v: nat)
    requires LeavesGets(word, c, c', n, w) && Active(c, v)
    ensures Shape(word, c', n) && AheadOk(word, c', n, v)
  {
    LeaveGetsShape(word, c, c', n, w);
    assert AheadOk(word, c, n, v);
    assert v != w;
    if c'.server.gets.local[v] > c'.server.gets.global {
      DueBetween(word, c.server.gets.global, c'.server.gets.global, c.server.gets.local[v] - 1);
      LevelStays(word, c, c', n);
    }
  }

  lemma LeaveGetsAnswer(word: seq<Request>, c: Run, c': Run, n: nat, w: nat, a: Answer)
    requires LeavesGets(word, c, c', n, w) && AnswerOk(word, c, n, a)
    ensures Shape(word, c', n) && AnswerOk(word, c', n, a)
  {
    LeaveGetsShape(word, c, c', n, w);
    forall v: nat | v < n
      ensures ContentOk(word, c', n, a.log, a.get.index, v)
    {
      assert ContentOk(word, c, n, a.log, a.get.index, v);
    }
    if a.get.index >= c'.server.gets.global {
      DueBetween(word, c.server.gets.global, c'.server.gets.global, a.get.index);
      LevelStays(word, c, c', n);
    }
  }

  lemma LeaveGetsKeeps(word: seq<Request>, c: Run, c': Run, n: nat, w: nat)
    requires LeavesGets(word, c, c', n, w)
    ensures Core(word, c', n, -1)
  {
    LeaveGetsShape(word, c, c', n, w);
    forall v: nat | v < n
      ensures WorkerOk(word, c', n, v, -1)
    {
      LeaveGetsWorker(word, c, c', n, w, v);
    }
    forall v: nat | Active(c', v)
      ensures AheadOk(word, c', n, v)
    {
      LeaveGetsAhead(word, c, c', n, w, v);
    }
    forall i: nat | i < |c'.server.answers|
      ensures AnswerOk(word, c', n, c'.server.answers[i])
    {
      LeaveGetsAnswer(word, c, c', n, w, c.server.answers[i]);
    }
  }
}
