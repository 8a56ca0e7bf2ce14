/** The server for synchronous training: it holds back the requests of workers that are ahead. */
module SyncServer {
  import opened VectorClocks

  /** The index-th add, or get, of a worker. */
  datatype Message = Message(worker: nat, index: nat)

  /** A get and the adds that had been applied to the tables when it was answered. */
  datatype Answer = Answer(get: Message, log: seq<Message>)

  /** adds and gets are the clocks; log lists the applied adds, answers the answered gets. ok says
      that no check has failed and no counter has been pushed beyond INT_MAX. */
  datatype State = State(adds: Clock, gets: Clock, waited: seq<int>, addCache: seq<Message>,
                         getCache: seq<Message>, log: seq<Message>, answers: seq<Answer>, ok: bool)

  predicate Known(ms: seq<Message>, n: nat)
  {
    forall i :: 0 <= i < |ms| ==> ms[i].worker < n
  }

  predicate WellFormed(s: State, n: nat)
  {
    && n > 0
    && |s.adds.local| == |s.gets.local| == |s.waited| == n
    && Known(s.addCache, n) && Known(s.getCache, n)
  }

  function Start(n: nat): State
  {
    State(Clock(seq(n, _ => 0), 0), Clock(seq(n, _ => 0), 0), seq(n, _ => 0), [], [], [], [], true)
  }

  // ---- what the handlers do, step by step ----

  function TickAdds(s: State, w: nat): State
    requires w < |s.adds.local|
  {
    s.(adds := Tick(s.adds, w), ok := s.ok && s.adds.local[w] < INT_MAX)
  }

  function TickGets(s: State, w: nat): State
    requires w < |s.gets.local|
  {
    s.(gets := Tick(s.gets, w), ok := s.ok && s.gets.local[w] < INT_MAX)
  }

  function Apply(s: State, m: Message): State
  {
    s.(log := s.log + [m])
  }

  function Serve(s: State, m: Message): State
  {
    s.(answers := s.answers + [Answer(m, s.log)])
  }

  /** Answers the oldest held-back get; the check fails if that completes a round of gets. */
  function ServeCached(s: State, n: nat): (t: State)
    requires WellFormed(s, n) && s.getCache != []
    ensures WellFormed(t, n)
  {
    var m := s.getCache[0];
    var t := TickGets(Serve(s.(getCache := s.getCache[1..]), m), m.worker);
    t.(ok := t.ok && !Reached(s.gets, t.gets))
  }

  function ServeAllCached(s: State, n: nat): (t: State)
    requires WellFormed(s, n)
    ensures WellFormed(t, n)
    decreases |s.getCache|
  {
    if s.getCache == [] then s else ServeAllCached(ServeCached(s, n), n)
  }

  function ApplyCached(s: State, n: nat): (t: State)
    requires WellFormed(s, n) && s.addCache != []
    ensures WellFormed(t, n)
  {
    var m := s.addCache[0];
    var t := TickAdds(Apply(s.(addCache := s.addCache[1..]), m), m.worker);
    t.(ok := t.ok && !Reached(s.adds, t.adds), waited := t.waited[m.worker := t.waited[m.worker] - 1])
  }

  function ApplyAllCached(s: State, n: nat): (t: State)
    requires WellFormed(s, n)
    ensures WellFormed(t, n)
    decreases |s.addCache|
  {
    if s.addCache == [] then s else ApplyAllCached(ApplyCached(s, n), n)
  }

  function OnAdd(s: State, m: Message, n: nat): (t: State)
    requires WellFormed(s, n) && m.worker < n
    ensures WellFormed(t, n)
  {
    var w := m.worker;
    if s.gets.local[w] > s.gets.global then
      s.(addCache := s.addCache + [m], waited := s.waited[w := s.waited[w] + 1])
    else
      var t := TickAdds(Apply(s, m), w);
      if Reached(s.adds, t.adds) then ServeAllCached(t.(ok := t.ok && t.addCache == []), n) else t
  }

  function OnGet(s: State, m: Message, n: nat): (t: State)
    requires WellFormed(s, n) && m.worker < n
    ensures WellFormed(t, n)
  {
    var w := m.worker;
    if s.adds.local[w] > s.adds.global || s.waited[w] > 0 then s.(getCache := s.getCache + [m])
    else
      var t := TickGets(Serve(s, m), w);
      if Reached(s.gets, t.gets) then ApplyAllCached(t, n) else t
  }

  function RetireAdds(s: State, w: nat, n: nat): (t: State)
    requires WellFormed(s, n) && w < n
    ensures WellFormed(t, n)
  {
    var t := s.(adds := Retire(s.adds, w));
    if Reached(s.adds, t.adds) then ServeAllCached(t.(ok := t.ok && t.addCache == []), n) else t
  }

  function RetireGets(s: State, w: nat, n: nat): (t: State)
    requires WellFormed(s, n) && w < n
    ensures WellFormed(t, n)
  {
    var t := s.(gets := Retire(s.gets, w));
    if Reached(s.gets, t.gets) then ApplyAllCached(t.(ok := t.ok && t.getCache == []), n) else t
  }

  function OnFinish(s: State, w: nat, n: nat): (t: State)
    requires WellFormed(s, n) && w < n
    ensures WellFormed(t, n)
  {
    RetireGets(RetireAdds(s, w, n), w, n)
  }

  // ---- the server ----

  class SyncServer {
    const n: nat
    const workerGetClocks: VectorClock
    const workerAddClocks: VectorClock
    var numWaitedAdd: seq<int>
    var msgAddCache: seq<Message>
    var msgGetCache: seq<Message>
    var log: seq<Message>
    var answers: seq<Answer>
    var ok: bool

    function Contents(): State
      reads this, workerAddClocks, workerGetClocks
    {
      State(workerAddClocks.State(), workerGetClocks.State(), numWaitedAdd, msgAddCache, msgGetCache, log, answers, ok)
    }

    ghost predicate Valid()
      reads this, workerAddClocks, workerGetClocks
    {
      workerAddClocks != workerGetClocks && WellFormed(Contents(), n)
    }

    constructor (numWorkers: nat)
      requires numWorkers > 0
      ensures Valid() && n == numWorkers && Contents() == Start(n)
      ensures fresh(workerAddClocks) && fresh(workerGetClocks)
    {
      n := numWorkers;
      workerGetClocks := new VectorClock(numWorkers);
      workerAddClocks := new VectorClock(numWorkers);
      numWaitedAdd := seq(numWorkers, _ => 0);
      msgAddCache, msgGetCache, log, answers, ok := [], [], [], [], true;
    }

    method Check(condition: bool)
      modifies this
      ensures Contents() == old(Contents()).(ok := old(ok) && condition)
    {
      ok := ok && condition;
    }

    method UpdateAdds(w: nat) returns (reached: bool)
      requires Valid() && w < n
      modifies this, workerAddClocks
      ensures Valid() && Contents() == TickAdds(old(Contents()), w)
      ensures reached == Reached(old(Contents()).adds, Contents().adds)
    {
      Check(workerAddClocks.local[w] < INT_MAX);
      reached := workerAddClocks.Update(w);
    }

    method UpdateGets(w: nat) returns (reached: bool)
      requires Valid() && w < n
      modifies this, workerGetClocks
      ensures Valid() && Contents() == TickGets(old(Contents()), w)
      ensures reached == Reached(old(Contents()).gets, Contents().gets)
    {
      Check(workerGetClocks.local[w] < INT_MAX);
      reached := workerGetClocks.Update(w);
    }

    method AnswerOldest()
      requires Valid() && msgGetCache != []
      modifies this, workerGetClocks
      ensures Valid() && Contents() == ServeCached(old(Contents()), n)
    {
      var getMsg := msgGetCache[0];
      msgGetCache := msgGetCache[1..];
      answers := answers + [Answer(getMsg, log)];
      var reached := UpdateGets(getMsg.worker);
      Check(!reached);
    }

    method DrainGets()
      requires Valid()
      modifies this, workerGetClocks
      ensures Valid() && Contents() == ServeAllCached(old(Contents()), n)
    {
      while msgGetCache != []
        invariant Valid() && ServeAllCached(Contents(), n) == ServeAllCached(old(Contents()), n)
        decreases |msgGetCache|
      {
        AnswerOldest();
      }
    }

    method ApplyOldest()
      requires Valid() && msgAddCache != []
      modifies this, workerAddClocks
      ensures Valid() && Contents() == ApplyCached(old(Contents()), n)
    {
      var addMsg := msgAddCache[0];
      msgAddCache := msgAddCache[1..];
      log := log + [addMsg];
      var reached := UpdateAdds(addMsg.worker);
      Check(!reached);
      numWaitedAdd := numWaitedAdd[addMsg.worker := numWaitedAdd[addMsg.worker] - 1];
    }

    method DrainAdds()
      requires Valid()
      modifies this, workerAddClocks
      ensures Valid() && Contents() == ApplyAllCached(old(Contents()), n)
    {
      while msgAddCache != []
        invariant Valid() && ApplyAllCached(Contents(), n) == ApplyAllCached(old(Contents()), n)
        decreases |msgAddCache|
      {
        ApplyOldest();
      }
    }

    method ProcessAdd(msg: Message)
      requires Valid() && msg.worker < n
      modifies this, workerAddClocks, workerGetClocks
      ensures Valid() && Contents() == OnAdd(old(Contents()), msg, n)
    {
      var worker := msg.worker;
      if workerGetClocks.local[worker] > workerGetClocks.global {
        msgAddCache := msgAddCache + [msg];
        numWaitedAdd := numWaitedAdd[worker := numWaitedAdd[worker] + 1];
        return;
      }
      log := log + [msg];
      var reached := UpdateAdds(worker);
      if reached {
        Check(msgAddCache == []);
        DrainGets();
      }
    }

    method ProcessGet(msg: Message)
      requires Valid() && msg.worker < n
      modifies this, workerAddClocks, workerGetClocks
      ensures Valid() && Contents() == OnGet(old(Contents()), msg, n)
    {
      var worker := msg.worker;
      if workerAddClocks.local[worker] > workerAddClocks.global || numWaitedAdd[worker] > 0 {
        msgGetCache := msgGetCache + [msg];
        return;
      }
      answers := answers + [Answer(msg, log)];
      var reached := UpdateGets(worker);
      if reached {
        DrainAdds();
      }
    }

    method FinishAdds(worker: nat)
      requires Valid() && worker < n
      modifies this, workerAddClocks, workerGetClocks
      ensures Valid() && Contents() == RetireAdds(old(Contents()), worker, n)
    {
      var reached := workerAddClocks.FinishTrain(worker);
      if reached {
        Check(msgAddCache == []);
        DrainGets();
      }
    }

    method FinishGets(worker: nat)
      requires Valid() && worker < n
      modifies this, workerAddClocks, workerGetClocks
      ensures Valid() && Contents() == RetireGets(old(Contents()), worker, n)
    {
      var reached := workerGetClocks.FinishTrain(worker);
      if reached {
        Check(msgGetCache == []);
        DrainAdds();
      }
    }

    method ProcessFinishTrain(worker: nat)
      requires Valid() && worker < n
      modifies this, workerAddClocks, workerGetClocks
      ensures Valid() && Contents() == OnFinish(old(Contents()), worker, n)
    {
      FinishAdds(worker);
      FinishGets(worker);
    }
  }
}
