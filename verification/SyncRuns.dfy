/** Runs of the sync server: workers send the requests of one common word, each waits for the answer
    to a get before it goes on, and may finish between two rounds, or whenever that is harmless. */
module SyncRuns {
  import opened VectorClocks
  import opened SyncWorkload
  import opened SyncServer
  import opened SyncInvariant
  import opened SyncHandlers
  import opened SyncFinish

  datatype Event = Send(worker: nat) | Finish(worker: nat)

  ghost predicate Possible(word: seq<Request>, c: Run, n: nat, e: Event)
  {
    && Shape(word, c, n) && Active(c, e.worker) && !Blocked(c, e.worker)
    && match e
       case Send(w) => c.pos[w] < |word|
       case Finish(w) => Boundary(word, c.pos[w]) || (c.server.waited[w] == 0 && FinishIsSafe(c, w))
  }

  ghost function After(word: seq<Request>, c: Run, n: nat, e: Event): Run
    requires Possible(word, c, n, e)
  {
    match e
    case Send(w) => if word[c.pos[w]] == Add then AfterAdd(word, c, n, w) else AfterGet(word, c, n, w)
    case Finish(w) => AfterFinish(c, n, w)
  }

  ghost function Initial(n: nat): Run
  {
    Run(Start(n), seq(n, _ => 0), seq(n, _ => false))
  }

  ghost predicate Follows(word: seq<Request>, c: Run, n: nat, e: Event, c': Run)
  {
    Possible(word, c, n, e) && c' == After(word, c, n, e)
  }

  ghost predicate Leads(word: seq<Request>, c: Run, n: nat, c': Run)
  {
    exists e :: Follows(word, c, n, e, c')
  }

  ghost predicate IsRun(word: seq<Request>, n: nat, runs: seq<Run>)
  {
    && runs != [] && runs[0] == Initial(n)
    && forall i :: 0 < i < |runs| ==> Leads(word, runs[i - 1], n, runs[i])
  }

  lemma ConstantIndices(n: nat, w: nat)
    ensures Indices([], w) == [] && Gets([]) == []
  {
  }

  lemma StartIsFine(word: seq<Request>, n: nat)
    requires n > 0 && |word| < INT_MAX
    ensures Inv(word, Initial(n), n)
  {
    var c := Initial(n);
    forall w: nat | w < n
      ensures WorkerOk(word, c, n, w, -1)
    {
      ConstantIndices(n, w);
      assert Upto(0) == [];
    }
  }

  /** One event, whichever is possible. */
  lemma EventKeeps(word: seq<Request>, c: Run, n: nat, e: Event)
    requires Inv(word, c, n) && Possible(word, c, n, e)
    ensures Inv(word, After(word, c, n, e), n)
  {
    var w := e.worker;
    match e
    case Finish(_) =>
      if Boundary(word, c.pos[w]) {
        BoundaryIsSafe(word, c, n, w);
      }
      FinishExactly(word, c, n, w);
    case Send(_) =>
      if word[c.pos[w]] == Add {
        if c.server.gets.local[w] > c.server.gets.global {
          AddHeldBack(word, c, n, w);
        } else {
          AddTaken(word, c, n, w);
        }
      } else if c.server.adds.local[w] > c.server.adds.global || c.server.waited[w] > 0 {
        GetHeldBack(word, c, n, w);
      } else {
        GetTaken(word, c, n, w);
      }
  }

  /** The invariant holds all along every run. */
  lemma {:induction false} RunsKeepInvariant(word: seq<Request>, n: nat, runs: seq<Run>, i: nat)
    requires n > 0 && |word| < INT_MAX && IsRun(word, n, runs) && i < |runs|
    ensures Inv(word, runs[i], n)
  {
    if i == 0 {
      StartIsFine(word, n);
    } else {
      RunsKeepInvariant(word, n, runs, i - 1);
      assert Leads(word, runs[i - 1], n, runs[i]);
      var e :| Follows(word, runs[i - 1], n, e, runs[i]);
      EventKeeps(word, runs[i - 1], n, e);
    }
  }

  // ---- what a run promises ----

  /** No check ever fails and no counter overflows. */
  lemma ChecksNeverFail(word: seq<Request>, n: nat, runs: seq<Run>, i: nat)
    requires n > 0 && |word| < INT_MAX && IsRun(word, n, runs) && i < |runs|
    ensures runs[i].server.ok
  {
    RunsKeepInvariant(word, n, runs, i);
  }

  /** All workers' gets with the same index see the identical log. */
  lemma SameGetSameLog(word: seq<Request>, n: nat, runs: seq<Run>, i: nat, a: Answer, b: Answer)
    requires n > 0 && |word| < INT_MAX && IsRun(word, n, runs) && i < |runs|
    requires a in runs[i].server.answers && b in runs[i].server.answers
    requires a.get.index == b.get.index
    ensures a.log == b.log
  {
    RunsKeepInvariant(word, n, runs, i);
    var j :| 0 <= j < |runs[i].server.answers| && runs[i].server.answers[j] == a;
    var k :| 0 <= k < |runs[i].server.answers| && runs[i].server.answers[k] == b;
    assert Agree(runs[i].server.answers[j], runs[i].server.answers[k]);
  }

  /** The log behind an answer holds, of every worker that has not finished early, exactly the first
      adds, as many as the word has before that get; of the others all they ever sent. */
  lemma LogIsExact(word: seq<Request>, n: nat, runs: seq<Run>, i: nat, a: Answer, v: nat)
    requires n > 0 && |word| < INT_MAX && IsRun(word, n, runs) && i < |runs|
    requires a in runs[i].server.answers && v < n
    ensures |runs[i].done| == |runs[i].pos| == n && runs[i].pos[v] <= |word|
    ensures var sent, due := AddsIn(word, runs[i].pos[v]), AddsDue(word, a.get.index);
            if runs[i].done[v] && sent < due then Indices(a.log, v) == Upto(sent)
            else Indices(a.log, v) == Upto(due)
  {
    RunsKeepInvariant(word, n, runs, i);
    var j :| 0 <= j < |runs[i].server.answers| && runs[i].server.answers[j] == a;
    assert AnswerOk(word, runs[i], n, runs[i].server.answers[j]);
    assert ContentOk(word, runs[i], n, a.log, a.get.index, v);
  }

  /** Nothing is lost, doubled or reordered: a worker's adds are applied or waiting, its gets are
      answered or waiting, and the pending counter counts the waiting adds. */
  lemma EverythingIsAccountedFor(word: seq<Request>, n: nat, runs: seq<Run>, i: nat, w: nat)
    requires n > 0 && |word| < INT_MAX && IsRun(word, n, runs) && i < |runs| && w < n
    ensures Shape(word, runs[i], n) && Accounted(word, runs[i], n, w)
  {
    RunsKeepInvariant(word, n, runs, i);
    assert WorkerOk(word, runs[i], n, w, -1);
  }

  /** When all have finished, both caches are empty and every add has been applied. */
  lemma FinishedMeansDrained(word: seq<Request>, n: nat, runs: seq<Run>, i: nat)
    requires n > 0 && |word| < INT_MAX && IsRun(word, n, runs) && i < |runs|
    requires forall w :: 0 <= w < |runs[i].done| ==> runs[i].done[w]
    ensures runs[i].server.addCache == [] && runs[i].server.getCache == []
    ensures |runs[i].pos| == n
    ensures forall w: nat :: w < n ==>
              runs[i].pos[w] <= |word| && Indices(runs[i].server.log, w) == Upto(AddsIn(word, runs[i].pos[w]))
  {
    RunsKeepInvariant(word, n, runs, i);
    var c := runs[i];
    forall w: nat | w < n
      ensures Indices(c.server.addCache, w) == [] && Indices(c.server.getCache, w) == []
      ensures Indices(c.server.log, w) == Upto(AddsIn(word, c.pos[w]))
    {
      assert WorkerOk(word, c, n, w, -1);
    }
    NobodyListed(c.server.addCache, n);
    NobodyListed(c.server.getCache, n);
  }

  /** No deadlock: while somebody waits for an answer, somebody else has a request that it may send. */
  lemma SomebodyCanSend(word: seq<Request>, n: nat, runs: seq<Run>, i: nat, w: nat) returns (u: nat)
    requires n > 0 && |word| < INT_MAX && IsRun(word, n, runs) && i < |runs| && w < n && Blocked(runs[i], w)
    ensures Possible(word, runs[i], n, Send(u))
  {
    RunsKeepInvariant(word, n, runs, i);
    var c := runs[i];
    BlockedIsActive(word, c, n, -1, w);
    ActiveFacts(word, c, n, -1, w);
    u := MinAt(c.server.adds.local);
    assert WorkerOk(word, c, n, u, -1);
    if c.server.waited[u] == 0 {
      SlowestAdderCanSend(word, c, n, w, u);
    } else {
      var x := SomebodyIsLast(word, c, n, w);
      SlowestGetterCanSend(word, c, n, u, x);
      u := x;
    }
  }

  /** The worker with the fewest adds applied, if none of its adds waits. */
  lemma SlowestAdderCanSend(word: seq<Request>, c: Run, n: nat, w: nat, u: nat)
    requires Inv(word, c, n) && Active(c, w) && Blocked(c, w) && Active(c, u)
    requires c.server.adds.local[u] == c.server.adds.global && c.server.waited[u] == 0
    ensures Possible(word, c, n, Send(u))
  {
    assert WorkerOk(word, c, n, w, -1) && WorkerOk(word, c, n, u, -1) && AheadOk(word, c, n, w);
    ActiveFacts(word, c, n, -1, w);
    ActiveFacts(word, c, n, -1, u);
    CountsGrow(word, c.pos[w], |word|);
  }

  /** The worker with the fewest answers, if adds of another with the fewest adds applied wait. */
  lemma SlowestGetterCanSend(word: seq<Request>, c: Run, n: nat, u: nat, x: nat)
    requires Inv(word, c, n) && Active(c, u) && Active(c, x)
    requires c.server.adds.local[u] == c.server.adds.global && c.server.waited[u] > 0
    requires c.server.gets.local[x] == c.server.gets.global
    ensures Possible(word, c, n, Send(x))
  {
    assert WorkerOk(word, c, n, u, -1) && WorkerOk(word, c, n, x, -1) && AheadOk(word, c, n, u);
    ActiveFacts(word, c, n, -1, u);
    ActiveFacts(word, c, n, -1, x);
    CountsGrow(word, c.pos[u], |word|);
  }

  // ---- a finish that is not harmless ----

  function TwoClocks(a: int, b: int, global: int): Clock
  {
    Clock([a, b], global)
  }

  lemma TickTwo(a: int, b: int, global: int, i: nat)
    requires i < 2
    ensures var (a', b') := if i == 0 then (a + 1, b) else (a, b + 1);
            Tick(TwoClocks(a, b, global), i)
            == TwoClocks(a', b', if global < a' && global < b' then global + 1 else global)
    ensures Reached(TwoClocks(a, b, global), Tick(TwoClocks(a, b, global), i))
         == var (a', b') := if i == 0 then (a + 1, b) else (a, b + 1);
            (global < a' && global < b' && (a' == INT_MAX || a' <= global + 1) && (b' == INT_MAX || b' <= global + 1))
  {
    var local := [a, b][i := [a, b][i] + 1];
    assert MinFirst(local, 1) == local[0];
    assert MinOf(local) == if local[0] <= local[1] then local[0] else local[1];
    assert local[0] == (if i == 0 then a + 1 else a) && local[1] == if i == 0 then b else b + 1;
    assert Tick(TwoClocks(a, b, global), i).local == local;
    assert local == [local[0], local[1]];
  }

  lemma RetireFirst(a: int, b: int, global: int)
    requires b <= INT_MAX
    ensures Retire(TwoClocks(a, b, global), 0) == TwoClocks(INT_MAX, b, if global < b then b else global)
  {
    var local := [a, b][0 := INT_MAX];
    assert local == [INT_MAX, b];
    assert MinFirst(local, 1) == INT_MAX;
    assert MinOf(local) == b;
  }

  /** Worker 0 sends Add, Get, Add and then Finish, worker 1 Add and Get. */
  function AddAgain(): State
  {
    var s1 := OnAdd(Start(2), Message(0, 0), 2);
    var s2 := OnGet(s1, Message(0, 0), 2);
    var s3 := OnAdd(s2, Message(1, 0), 2);
    OnAdd(s3, Message(0, 1), 2)
  }

  const M0 := Message(0, 0)
  const M1 := Message(1, 0)
  const FIRST_ADD :=
    State(TwoClocks(1, 0, 0), TwoClocks(0, 0, 0), [0, 0], [], [], [M0], [], true)
  const BOTH_ADDED :=
    State(TwoClocks(1, 1, 1), TwoClocks(1, 0, 0), [0, 0], [], [], [M0, M1], [Answer(M0, [M0, M1])], true)

  lemma AddFirst()
    ensures OnAdd(Start(2), M0, 2) == FIRST_ADD
  {
    assert Start(2) == State(TwoClocks(0, 0, 0), TwoClocks(0, 0, 0), [0, 0], [], [], [], [], true);
    TickTwo(0, 0, 0, 0);
  }

  lemma ServeFirst()
    ensures ServeAllCached(FIRST_ADD.(adds := TwoClocks(1, 1, 1), log := [M0, M1], getCache := [M0]), 2) == BOTH_ADDED
  {
    var s := FIRST_ADD.(adds := TwoClocks(1, 1, 1), log := [M0, M1], getCache := [M0]);
    TickTwo(0, 0, 0, 0);
    assert s.getCache[1..] == [] && s.answers + [Answer(M0, s.log)] == [Answer(M0, [M0, M1])];
    assert ServeCached(s, 2) == BOTH_ADDED;
    assert ServeAllCached(BOTH_ADDED, 2) == BOTH_ADDED;
  }

  lemma AddSecond()
    ensures OnAdd(FIRST_ADD.(getCache := [M0]), M1, 2) == BOTH_ADDED
  {
    var s := FIRST_ADD.(getCache := [M0]);
    TickTwo(1, 0, 0, 1);
    var t := TickAdds(Apply(s, M1), 1);
    assert t == FIRST_ADD.(adds := TwoClocks(1, 1, 1), log := [M0, M1], getCache := [M0]);
    assert t.(ok := t.ok && t.addCache == []) == t;
    ServeFirst();
  }

  lemma AddAgainIs()
    ensures AddAgain() == BOTH_ADDED.(addCache := [Message(0, 1)], waited := [1, 0])
  {
    AddFirst();
    HoldGet();
    AddSecond();
    HoldAdd();
  }

  lemma HoldGet()
    ensures OnGet(FIRST_ADD, M0, 2) == FIRST_ADD.(getCache := [M0])
  {
  }

  lemma HoldAdd()
    ensures OnAdd(BOTH_ADDED, Message(0, 1), 2)
         == BOTH_ADDED.(addCache := [Message(0, 1)], waited := [1, 0])
  {
  }

  /** A Finish sent right after an Add: when the held-back add is applied at last, its worker's clock
      is pushed beyond INT_MAX. */
  lemma FinishAfterAddOverflows()
    ensures OnFinish(AddAgain(), 0, 2).ok
    ensures !OnGet(OnFinish(AddAgain(), 0, 2), Message(1, 0), 2).ok
  {
    AddAgainIs();
    var s := AddAgain();
    RetireFirst(1, 1, 1);
    RetireFirst(1, 0, 0);
    var f := s.(adds := TwoClocks(INT_MAX, 1, 1), gets := TwoClocks(INT_MAX, 0, 0));
    assert OnFinish(s, 0, 2) == f;
    TickTwo(INT_MAX, 0, 0, 1);
    var g := TickGets(Serve(f, Message(1, 0)), 1);
    assert g.gets == TwoClocks(INT_MAX, 1, 1) && Reached(f.gets, g.gets);
    assert ApplyAllCached(g, 2) == ApplyCached(g, 2);
  }
}
