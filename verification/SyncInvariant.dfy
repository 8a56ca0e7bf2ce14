/** What the sync server keeps while its workers follow one word of requests. */
module SyncInvariant {
  import opened VectorClocks
  import opened SyncWorkload
  import opened SyncServer

  /** The server, how far each worker is in the word, and who has finished. */
  datatype Run = Run(server: State, pos: seq<nat>, done: seq<bool>)

  // ---- the messages of one worker ----

  /** The indices of the messages of worker w among the first k, in order. */
  ghost function IndicesFirst(ms: seq<Message>, k: nat, w: nat): seq<nat>
    requires k <= |ms|
  {
    if k == 0 then []
    else if ms[k - 1].worker == w then IndicesFirst(ms, k - 1, w) + [ms[k - 1].index]
    else IndicesFirst(ms, k - 1, w)
  }

  ghost function Indices(ms: seq<Message>, w: nat): seq<nat>
  {
    IndicesFirst(ms, |ms|, w)
  }

  ghost function Upto(k: nat): (s: seq<nat>)
    ensures |s| == k && forall i :: 0 <= i < k ==> s[i] == i
  {
    seq(k, i requires 0 <= i < k => i)
  }

  ghost function Gets(answers: seq<Answer>): (ms: seq<Message>)
    ensures |ms| == |answers| && forall i :: 0 <= i < |ms| ==> ms[i] == answers[i].get
  {
    seq(|answers|, i requires 0 <= i < |answers| => answers[i].get)
  }

  lemma UptoMore(a: seq<nat>, b: seq<nat>, k: nat)
    requires a + b == Upto(k)
    ensures a + (b + [k]) == Upto(k + 1)
  {
    assert a + (b + [k]) == (a + b) + [k];
  }

  lemma UptoShift(a: seq<nat>, b: seq<nat>, c: seq<nat>, d: seq<nat>, k: nat)
    requires a + b == Upto(k) && b == c + d
    ensures (a + c) + d == Upto(k)
  {
    assert (a + c) + d == a + b;
  }

  lemma {:induction false} IndicesPrefix(a: seq<Message>, b: seq<Message>, k: nat, w: nat)
    requires k <= |a|
    ensures IndicesFirst(a + b, k, w) == IndicesFirst(a, k, w)
  {
    if k > 0 {
      IndicesPrefix(a, b, k - 1, w);
    }
  }

  lemma {:induction false} IndicesSuffix(a: seq<Message>, b: seq<Message>, k: nat, w: nat)
    requires k <= |b|
    ensures IndicesFirst(a + b, |a| + k, w) == Indices(a, w) + IndicesFirst(b, k, w)
  {
    if k == 0 {
      IndicesPrefix(a, b, |a|, w);
    } else {
      IndicesSuffix(a, b, k - 1, w);
    }
  }

  lemma IndicesCat(a: seq<Message>, b: seq<Message>, w: nat)
    ensures Indices(a + b, w) == Indices(a, w) + Indices(b, w)
  {
    IndicesSuffix(a, b, |b|, w);
  }

  lemma IndicesOne(m: Message, w: nat)
    ensures Indices([m], w) == if m.worker == w then [m.index] else []
  {
    assert IndicesFirst([m], 0, w) == [];
  }

  lemma IndicesSplit(ms: seq<Message>, k: nat, w: nat)
    requires k < |ms|
    ensures Indices(ms, w) == Indices(ms[..k], w) + Indices([ms[k]], w) + Indices(ms[k + 1..], w)
    ensures Indices(ms[..k] + ms[k + 1..], w) == Indices(ms[..k], w) + Indices(ms[k + 1..], w)
  {
    assert ms == ms[..k] + [ms[k]] + ms[k + 1..];
    IndicesCat(ms[..k] + [ms[k]], ms[k + 1..], w);
    IndicesCat(ms[..k], [ms[k]], w);
    IndicesCat(ms[..k], ms[k + 1..], w);
  }

  // ---- the invariant ----

  ghost predicate Active(c: Run, w: nat)
  {
    w < |c.done| && !c.done[w]
  }

  ghost predicate Blocked(c: Run, w: nat)
  {
    Indices(c.server.getCache, w) != []
  }

  ghost predicate Shape(word: seq<Request>, c: Run, n: nat)
  {
    && WellFormed(c.server, n)
    && |c.pos| == |c.done| == n
    && |word| < INT_MAX
    && (forall w :: 0 <= w < n ==> c.pos[w] <= |word|)
    && InStep(c.server.adds) && InStep(c.server.gets)
    && c.server.gets.global >= 0
  }

  /** Adds the word asks for before the get that the slowest worker is at. */
  ghost function Due(word: seq<Request>, c: Run): nat
    requires c.server.gets.global >= 0
  {
    AddsDue(word, c.server.gets.global)
  }

  /** Every request of worker w is exactly once applied, answered or waiting, in order. */
  ghost predicate Accounted(word: seq<Request>, c: Run, n: nat, w: nat)
    requires Shape(word, c, n) && w < n
  {
    && c.server.waited[w] == |Indices(c.server.addCache, w)|
    && Indices(c.server.log, w) + Indices(c.server.addCache, w) == Upto(AddsIn(word, c.pos[w]))
    && Indices(Gets(c.server.answers), w) + Indices(c.server.getCache, w) == Upto(GetsIn(word, c.pos[w]))
  }

  ghost predicate ActiveOk(word: seq<Request>, c: Run, n: nat, w: nat)
    requires Shape(word, c, n) && w < n
  {
    && c.server.adds.local[w] == AddsIn(word, c.pos[w]) - c.server.waited[w] <= Due(word, c)
    && 0 <= c.server.gets.local[w] == GetsIn(word, c.pos[w]) - |Indices(c.server.getCache, w)|
    && |Indices(c.server.getCache, w)| <= 1
    && (Blocked(c, w) ==> AddsIn(word, c.pos[w]) == AddsDue(word, c.server.gets.local[w]))
  }

  /** A finished worker has nothing left behind. leaver is the one that has left the add clock only. */
  ghost predicate DoneOk(word: seq<Request>, c: Run, n: nat, w: nat, leaver: int)
    requires Shape(word, c, n) && w < n
  {
    && c.server.adds.local[w] == INT_MAX
    && (w != leaver ==> c.server.gets.local[w] == INT_MAX)
    && c.server.gets.local[w] <= INT_MAX
    && Indices(c.server.addCache, w) == [] && !Blocked(c, w)
    && AddsIn(word, c.pos[w]) <= Due(word, c)
  }

  ghost predicate StatusOk(word: seq<Request>, c: Run, n: nat, w: nat, leaver: int)
    requires Shape(word, c, n) && w < n
  {
    if c.done[w] then DoneOk(word, c, n, w, leaver) else ActiveOk(word, c, n, w)
  }

  ghost predicate WorkerOk(word: seq<Request>, c: Run, n: nat, w: nat, leaver: int)
    requires Shape(word, c, n) && w < n
  {
    Accounted(word, c, n, w) && StatusOk(word, c, n, w, leaver)
  }

  /** The running workers' applied adds are exactly those due. */
  ghost predicate Level(word: seq<Request>, c: Run, n: nat)
    requires Shape(word, c, n)
  {
    forall w: nat :: Active(c, w) ==> c.server.adds.local[w] == Due(word, c)
  }

  /** Once somebody has got the answer that the slowest is still to get, no add is applied. */
  ghost predicate AheadOk(word: seq<Request>, c: Run, n: nat, w: nat)
    requires Shape(word, c, n) && w < n
  {
    c.server.gets.local[w] > c.server.gets.global ==>
      && Level(word, c, n)
      && AddsDue(word, c.server.gets.local[w] - 1) == Due(word, c)
  }

  /** Of worker v, the log behind get i holds the first adds: those before the get, or all of them
      if v has finished with fewer. */
  ghost predicate ContentOk(word: seq<Request>, c: Run, n: nat, log: seq<Message>, i: nat, v: nat)
    requires Shape(word, c, n) && v < n
  {
    var sent := AddsIn(word, c.pos[v]);
    && (c.done[v] || AddsDue(word, i) <= sent)
    && Indices(log, v) == Upto(if AddsDue(word, i) <= sent then AddsDue(word, i) else sent)
  }

  /** An answer that the slowest worker is still to get shows the current log. */
  ghost predicate CurrentOk(word: seq<Request>, c: Run, n: nat, a: Answer)
    requires Shape(word, c, n)
  {
    a.get.index >= c.server.gets.global ==>
      a.log == c.server.log && Level(word, c, n) && AddsDue(word, a.get.index) == Due(word, c)
  }

  ghost predicate AnswerOk(word: seq<Request>, c: Run, n: nat, a: Answer)
    requires Shape(word, c, n)
  {
    && CurrentOk(word, c, n, a)
    && forall v: nat :: v < n ==> ContentOk(word, c, n, a.log, a.get.index, v)
  }

  ghost predicate Agree(a: Answer, b: Answer)
  {
    a.get.index == b.get.index ==> a.log == b.log
  }

  ghost predicate AnswersAgree(answers: seq<Answer>)
  {
    forall i, j :: 0 <= i < |answers| && 0 <= j < |answers| ==> Agree(answers[i], answers[j])
  }

  ghost predicate Core(word: seq<Request>, c: Run, n: nat, leaver: int)
  {
    && Shape(word, c, n)
    && (forall w: nat :: w < n ==> WorkerOk(word, c, n, w, leaver))
    && (forall w: nat :: Active(c, w) ==> AheadOk(word, c, n, w))
    && (forall i: nat :: i < |c.server.answers| ==> AnswerOk(word, c, n, c.server.answers[i]))
    && AnswersAgree(c.server.answers)
  }

  /** Requests wait for a reason only. */
  ghost predicate Settled(word: seq<Request>, c: Run, n: nat)
    requires Shape(word, c, n)
  {
    && (forall w: nat :: Active(c, w) && c.server.waited[w] > 0 ==> c.server.gets.local[w] > c.server.gets.global)
    && (forall w: nat :: Active(c, w) && Blocked(c, w) ==>
          c.server.adds.local[w] > c.server.adds.global || c.server.waited[w] > 0)
  }

  ghost predicate Inv(word: seq<Request>, c: Run, n: nat)
  {
    Core(word, c, n, -1) && Settled(word, c, n) && c.server.ok
  }

  // ---- consequences ----

  lemma ActiveFacts(word: seq<Request>, c: Run, n: nat, leaver: int, w: nat)
    requires Core(word, c, n, leaver) && Active(c, w)
    ensures 0 <= c.server.adds.local[w] <= AddsIn(word, c.pos[w]) < INT_MAX
    ensures 0 <= c.server.gets.global <= c.server.gets.local[w] < INT_MAX
    ensures c.server.adds.global <= c.server.adds.local[w] <= Due(word, c) <= AddsDue(word, c.server.gets.local[w])
    ensures AddsIn(word, c.pos[w]) <= AddsDue(word, c.server.gets.local[w])
    ensures c.server.gets.local[w] > 0 ==> AddsDue(word, c.server.gets.local[w] - 1) <= AddsIn(word, c.pos[w])
  {
    assert WorkerOk(word, c, n, w, leaver);
    var p, g := c.pos[w], c.server.gets.local[w];
    CountsGrow(word, 0, p);
    assert |Indices(c.server.log, w)| == c.server.adds.local[w];
    DueBounds(word, p, g);
    DueGrows(word, c.server.gets.global, g);
    if g > 0 {
      DueBounds(word, p, g - 1);
    }
  }

  /** Raising the slowest get clock up to some index keeps what is due there. */
  lemma DueBetween(word: seq<Request>, low: nat, mid: nat, high: nat)
    requires low <= mid <= high && AddsDue(word, low) == AddsDue(word, high)
    ensures AddsDue(word, mid) == AddsDue(word, low)
  {
    DueGrows(word, low, mid);
    DueGrows(word, mid, high);
  }
}
