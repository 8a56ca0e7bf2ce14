/** The common word of Add and Get requests that all workers of a synchronous run follow. */
module SyncWorkload {

  datatype Request = Add | Get

  /** Adds among the first p requests. */
  ghost function AddsIn(word: seq<Request>, p: nat): nat
    requires p <= |word|
  {
    if p == 0 then 0 else AddsIn(word, p - 1) + if word[p - 1] == Add then 1 else 0
  }

  /** Gets among the first p requests. */
  ghost function GetsIn(word: seq<Request>, p: nat): nat
    requires p <= |word|
  {
    if p == 0 then 0 else GetsIn(word, p - 1) + if word[p - 1] == Get then 1 else 0
  }

  /** Adds before the get with index g among the first p requests; all of them if there is no
      such get. */
  ghost function AddsUpTo(word: seq<Request>, p: nat, g: nat): nat
    requires p <= |word|
  {
    if p == 0 || GetsIn(word, p) <= g then AddsIn(word, p) else AddsUpTo(word, p - 1, g)
  }

  /** Adds a worker must have sent when its get with index g is due. */
  ghost function AddsDue(word: seq<Request>, g: nat): nat
  {
    AddsUpTo(word, |word|, g)
  }

  lemma {:induction false} CountsGrow(word: seq<Request>, p: nat, q: nat)
    requires p <= q <= |word|
    ensures AddsIn(word, p) <= AddsIn(word, q) && GetsIn(word, p) <= GetsIn(word, q)
    ensures AddsIn(word, q) - AddsIn(word, p) <= q - p && GetsIn(word, q) <= q && AddsIn(word, q) <= q
    decreases q
  {
    if p < q {
      CountsGrow(word, p, q - 1);
    } else if q > 0 {
      CountsGrow(word, p - 1, q - 1);
    }
  }

  /** The due count is exact at the get itself, an upper bound before it and a lower bound after it. */
  lemma {:induction false} UpToBounds(word: seq<Request>, q: nat, p: nat, g: nat)
    requires p <= q <= |word|
    ensures GetsIn(word, p) <= g ==> AddsIn(word, p) <= AddsUpTo(word, q, g)
    ensures GetsIn(word, p) > g ==> AddsUpTo(word, q, g) <= AddsIn(word, p)
    decreases q
  {
    CountsGrow(word, p, q);
    if q > 0 && GetsIn(word, q) > g {
      if p < q {
        UpToBounds(word, q - 1, p, g);
      } else {
        UpToBounds(word, q - 1, q - 1, g);
        CountsGrow(word, q - 1, q);
      }
    }
  }

  lemma DueBounds(word: seq<Request>, p: nat, g: nat)
    requires p <= |word|
    ensures GetsIn(word, p) <= g ==> AddsIn(word, p) <= AddsDue(word, g)
    ensures GetsIn(word, p) > g ==> AddsDue(word, g) <= AddsIn(word, p)
  {
    UpToBounds(word, |word|, p, g);
  }

  /** At the get with index g, exactly the due adds have been sent. */
  lemma DueAtGet(word: seq<Request>, p: nat)
    requires p < |word| && word[p] == Get
    ensures AddsDue(word, GetsIn(word, p)) == AddsIn(word, p) == AddsIn(word, p + 1)
  {
    DueBounds(word, p, GetsIn(word, p));
    DueBounds(word, p + 1, GetsIn(word, p));
  }

  lemma DueAfterAdd(word: seq<Request>, p: nat)
    requires p < |word| && word[p] == Add
    ensures AddsIn(word, p) < AddsDue(word, GetsIn(word, p))
  {
    DueBounds(word, p + 1, GetsIn(word, p));
  }

  lemma {:induction false} UpToGrows(word: seq<Request>, p: nat, g: nat, h: nat)
    requires p <= |word| && g <= h
    ensures AddsUpTo(word, p, g) <= AddsUpTo(word, p, h)
  {
    if p > 0 && GetsIn(word, p) > h {
      UpToGrows(word, p - 1, g, h);
    } else {
      UpToBounds(word, p, p, h);
      if GetsIn(word, p) > g && p > 0 {
        UpToBounds(word, p, p, g);
      }
    }
  }

  lemma DueGrows(word: seq<Request>, g: nat, h: nat)
    requires g <= h
    ensures AddsDue(word, g) <= AddsDue(word, h)
  {
    UpToGrows(word, |word|, g, h);
  }

  /** Between two rounds: nothing sent yet or just after a get, and no further get before an add. */
  predicate Boundary(word: seq<Request>, p: nat)
    requires p <= |word|
  {
    (p == 0 || word[p - 1] == Get) && (p == |word| || word[p] == Add)
  }
}
