/** The vector clocks of the sync server: one counter per worker and their minimum. */
module VectorClocks {

  /** The counter of a worker that has finished. */
  const INT_MAX := 2147483647

  datatype Clock = Clock(local: seq<int>, global: int)

  /** The smallest of the first k elements. */
  function MinFirst(s: seq<int>, k: nat): (m: int)
    requires 0 < k <= |s|
    ensures exists i :: 0 <= i < k && s[i] == m
    ensures forall i :: 0 <= i < k ==> m <= s[i]
  {
    if k == 1 then s[0]
    else if MinFirst(s, k - 1) <= s[k - 1] then MinFirst(s, k - 1)
    else s[k - 1]
  }

  function MinOf(s: seq<int>): (m: int)
    requires s != []
    ensures exists i :: 0 <= i < |s| && s[i] == m
    ensures forall i :: 0 <= i < |s| ==> m <= s[i]
  {
    MinFirst(s, |s|)
  }

  /** No running worker is ahead of the global clock. */
  predicate NobodyAhead(c: Clock)
  {
    forall i :: 0 <= i < |c.local| ==> c.local[i] == INT_MAX || c.local[i] <= c.global
  }

  /** One more request of worker i. */
  function Tick(c: Clock, i: nat): (t: Clock)
    requires i < |c.local|
  {
    var local := c.local[i := c.local[i] + 1];
    Clock(local, if c.global < MinOf(local) then c.global + 1 else c.global)
  }

  /** Worker i leaves. */
  function Retire(c: Clock, i: nat): (t: Clock)
    requires i < |c.local|
  {
    var local := c.local[i := INT_MAX];
    Clock(local, if c.global < MinOf(local) then MinOf(local) else c.global)
  }

  /** The global clock has moved and caught up with everybody. */
  predicate Reached(before: Clock, after: Clock)
  {
    before.global < after.global && NobodyAhead(after)
  }

  ghost predicate InStep(c: Clock)
  {
    c.local != [] && c.global == MinOf(c.local)
  }

  lemma MinAt(s: seq<int>) returns (j: nat)
    requires s != []
    ensures j < |s| && s[j] == MinOf(s)
  {
    j :| j < |s| && s[j] == MinOf(s);
  }

  lemma TickKeepsStep(c: Clock, i: nat)
    requires InStep(c) && i < |c.local|
    ensures InStep(Tick(c, i))
    ensures Tick(c, i).global == c.global || (Tick(c, i).global == c.global + 1 && c.local[i] == c.global)
  {
    var local := c.local[i := c.local[i] + 1];
    var j := MinAt(c.local);
    var k := MinAt(local);
    var t := Tick(c, i);
    assert t.local == local;
    assert MinOf(local) <= local[j] <= c.global + 1;
    assert c.global <= c.local[k] <= local[k];
    assert c.local[i] != c.global ==> local[j] == c.global;
  }

  /** As long as somebody stays behind, the global clock stands still. */
  lemma TickHeld(c: Clock, i: nat, holder: nat)
    requires InStep(c) && i < |c.local| && holder < |c.local| && holder != i && c.local[holder] == c.global
    ensures Tick(c, i).global == c.global
  {
    assert Tick(c, i).local[holder] == c.global;
  }

  lemma RetireKeepsStep(c: Clock, i: nat)
    requires InStep(c) && i < |c.local| && c.local[i] <= INT_MAX
    ensures InStep(Retire(c, i)) && c.global <= Retire(c, i).global
    ensures Retire(c, i).global != c.global ==> c.local[i] == c.global
  {
    var local := c.local[i := INT_MAX];
    var j := MinAt(c.local);
    var k := MinAt(local);
    assert MinOf(local) <= local[j];
    assert c.global <= c.local[k] <= local[k];
    assert local[j] == c.global || j == i;
  }

  lemma RetireBound(c: Clock, i: nat, j: nat)
    requires InStep(c) && i < |c.local| && j < |c.local| && j != i
    ensures Retire(c, i).global <= c.local[j]
  {
    assert c.local[i := INT_MAX][j] == c.local[j];
  }

  class VectorClock {
    var local: seq<int>
    var global: int

    function State(): Clock
      reads this
    {
      Clock(local, global)
    }

    constructor (n: nat)
      ensures State() == Clock(seq(n, _ => 0), 0)
    {
      local, global := seq(n, _ => 0), 0;
    }

    method MinElement() returns (m: int)
      requires local != []
      ensures m == MinOf(local)
    {
      m := local[0];
      for i := 1 to |local|
        invariant exists j :: 0 <= j < i && local[j] == m
        invariant forall j :: 0 <= j < i ==> m <= local[j]
      {
        if local[i] < m {
          m := local[i];
        }
      }
      MinUnique(local, m);
    }

    /** The largest counter of a running worker, at least the global clock. */
    method MaxElement() returns (m: int)
      ensures m >= global
      ensures m == global <==> NobodyAhead(State())
    {
      m := global;
      for i := 0 to |local|
        invariant m >= global
        invariant forall j :: 0 <= j < i ==> local[j] == INT_MAX || local[j] <= m
        invariant m == global || exists j :: 0 <= j < i && local[j] == m != INT_MAX
      {
        m := if local[i] != INT_MAX && local[i] > m then local[i] else m;
      }
    }

    method Update(i: nat) returns (reached: bool)
      requires i < |local|
      modifies this
      ensures State() == Tick(old(State()), i) && local == old(local)[i := old(local[i]) + 1]
      ensures reached == Reached(old(State()), State())
    {
      local := local[i := local[i] + 1];
      var min := MinElement();
      if global < min {
        global := global + 1;
        var max := MaxElement();
        if global == max {
          return true;
        }
      }
      return false;
    }

    method FinishTrain(i: nat) returns (reached: bool)
      requires i < |local|
      modifies this
      ensures State() == Retire(old(State()), i) && local == old(local)[i := 2147483647]
      ensures reached == Reached(old(State()), State())
    {
      local := local[i := INT_MAX];
      var min := MinElement();
      if global < min {
        global := min;
        var max := MaxElement();
        if global == max {
          return true;
        }
      }
      return false;
    }
  }

  lemma MinUnique(s: seq<int>, m: int)
    requires exists i :: 0 <= i < |s| && s[i] == m
    requires forall i :: 0 <= i < |s| ==> m <= s[i]
    ensures m == MinOf(s)
  {
  }
}
