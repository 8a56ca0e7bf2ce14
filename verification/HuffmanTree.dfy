/** The merges made by the tree builder, as a record of its run, and what follows from
    each merge taking two lightest nodes: monotone weights, bounded depth, optimality. */
module HuffmanTree {
  import opened Sums
  import opened PrefixCodes
  import opened GreedyMerging

  /** Nodes 0..n-1 are the leaves; step i makes node n + i the parent of left[i] and right[i]. */
  datatype Merges = Merges(n: nat, w: seq<int>, left: seq<nat>, right: seq<nat>)
  {
    /** The nodes without a parent after i steps. */
    ghost function Live(i: nat): set<nat>
      requires i <= |left| && i <= |right|
    {
      if i == 0 then Below(n)
      else Live(i - 1) - {left[i - 1], right[i - 1]} + {n + i - 1}
    }

    ghost predicate Step(i: nat)
      requires i < |left| && i < |right| && n + i < |w|
    {
      TwoLightest(w, Live(i), left[i], right[i]) && w[n + i] == w[left[i]] + w[right[i]]
    }

    ghost predicate Valid()
    {
      && n >= 2
      && |left| == |right| <= n - 1
      && |w| == n + |left|
      && (forall x :: 0 <= x < n ==> 1 <= w[x])
      && (forall i: nat :: i < |left| ==> Step(i))
    }

    ghost predicate Complete()
    {
      Valid() && |left| == n - 1
    }

    function Root(): nat
      requires n >= 1
    {
      2 * n - 2
    }
  }

  // ---- which nodes are live when ----

  lemma {:induction false} LiveBelow(m: Merges, i: nat)
    requires m.Valid() && i <= |m.left|
    ensures forall x :: x in m.Live(i) ==> x < m.n + i
    ensures |m.Live(i)| == m.n - i
    decreases i
  {
    if i == 0 {
    } else {
      LiveBelow(m, i - 1);
      assert m.Step(i - 1);
      var before := m.Live(i - 1);
      var a, b := m.left[i - 1], m.right[i - 1];
      PairRemoved(before, a, b);
    }
  }

  lemma PairRemoved(s: set<nat>, a: nat, b: nat)
    requires a in s && b in s && a != b
    ensures |s - {a, b}| == |s| - 2
  {
    assert s - {a, b} == s - {a} - {b};
  }

  /** A node live at step k and already present at step i was live at step i. */
  lemma {:induction false} LiveBefore(m: Merges, i: nat, k: nat, x: nat)
    requires m.Valid() && i <= k <= |m.left|
    requires x in m.Live(k) && x < m.n + i
    ensures x in m.Live(i)
    decreases k
  {
    if i < k {
      LiveBefore(m, i, k - 1, x);
    }
  }

  lemma {:induction false} StaysGone(m: Merges, i: nat, k: nat, x: nat)
    requires m.Valid() && i <= k <= |m.left|
    requires x !in m.Live(i) && x < m.n + i
    ensures x !in m.Live(k)
    decreases k
  {
    if i < k {
      StaysGone(m, i, k - 1, x);
    }
  }

  /** Once merged, a node is never live again. */
  lemma GoneForGood(m: Merges, i: nat, k: nat)
    requires m.Valid() && i < k <= |m.left|
    ensures m.left[i] !in m.Live(k) && m.right[i] !in m.Live(k)
  {
    LiveBelow(m, i);
    assert m.Step(i);
    StaysGone(m, i + 1, k, m.left[i]);
    StaysGone(m, i + 1, k, m.right[i]);
  }

  /** A node that is no longer live was merged by some earlier step. */
  lemma {:induction false} MergedBy(m: Merges, k: nat, x: nat) returns (i: nat)
    requires m.Valid() && k <= |m.left|
    requires x < m.n + k && x !in m.Live(k)
    ensures i < k && (x == m.left[i] || x == m.right[i])
    decreases k
  {
    if k > 0 && (x == m.left[k - 1] || x == m.right[k - 1]) {
      i := k - 1;
    } else {
      i := MergedBy(m, k - 1, x);
    }
  }

  lemma OnlyRootIsLeft(m: Merges)
    requires m.Complete()
    ensures m.Live(m.n - 1) == {m.Root()}
  {
    LiveBelow(m, m.n - 1);
    var live := m.Live(m.n - 1);
    assert m.Root() in live;
    assert |live - {m.Root()}| == 0;
    assert live == {m.Root()} + (live - {m.Root()});
  }

  ghost predicate SameSteps(m: Merges, m': Merges, i: nat)
    requires i <= |m.left| <= |m'.left| && i <= |m.right| <= |m'.right|
  {
    forall j :: 0 <= j < i ==> m.left[j] == m'.left[j] && m.right[j] == m'.right[j]
  }

  lemma {:induction false} LiveDependsOnPrefix(m: Merges, m': Merges, i: nat)
    requires i <= |m.left| <= |m'.left| && i <= |m.right| <= |m'.right|
    requires m.n == m'.n && SameSteps(m, m', i)
    ensures m.Live(i) == m'.Live(i)
  {
    if i > 0 {
      LiveDependsOnPrefix(m, m', i - 1);
    }
  }

  ghost function Extend(m: Merges, a: nat, b: nat): Merges
    requires a < |m.w| && b < |m.w|
  {
    Merges(m.n, m.w + [m.w[a] + m.w[b]], m.left + [a], m.right + [b])
  }

  lemma LongerWeights(w: seq<int>, x: int, live: set<nat>, a: nat, b: nat)
    requires TwoLightest(w, live, a, b)
    ensures TwoLightest(w + [x], live, a, b)
  {
  }

  /** One more merge of two lightest live nodes keeps the record valid. */
  lemma ExtendValid(m: Merges, a: nat, b: nat)
    requires m.Valid() && |m.left| < m.n - 1
    requires TwoLightest(m.w, m.Live(|m.left|), a, b)
    ensures Extend(m, a, b).Valid()
    ensures Extend(m, a, b).Live(|m.left| + 1) == m.Live(|m.left|) - {a, b} + {m.n + |m.left|}
  {
    forall i: nat | i <= |m.left|
      ensures Extend(m, a, b).Step(i)
    {
      ExtendStep(m, a, b, i);
    }
    ExtendLive(m, a, b);
  }

  lemma ExtendLive(m: Merges, a: nat, b: nat)
    requires a < |m.w| && b < |m.w| && |m.left| == |m.right|
    ensures Extend(m, a, b).Live(|m.left| + 1) == m.Live(|m.left|) - {a, b} + {m.n + |m.left|}
  {
    ExtendHasSteps(m, a, b);
    LiveAfterOneMore(m, Extend(m, a, b), a, b);
  }

  lemma LiveAfterOneMore(m: Merges, m': Merges, a: nat, b: nat)
    requires |m.left| == |m.right| && |m'.left| == |m'.right| == |m.left| + 1 && m'.n == m.n
    requires SameSteps(m, m', |m.left|) && m'.left[|m.left|] == a && m'.right[|m.left|] == b
    ensures m'.Live(|m.left| + 1) == m.Live(|m.left|) - {a, b} + {m.n + |m.left|}
  {
    LiveDependsOnPrefix(m, m', |m.left|);
    LiveNext(m', |m.left|);
  }

  lemma ExtendHasSteps(m: Merges, a: nat, b: nat)
    requires a < |m.w| && b < |m.w| && |m.left| == |m.right|
    ensures var m' := Extend(m, a, b);
            && |m'.left| == |m'.right| == |m.left| + 1 && m'.n == m.n
            && SameSteps(m, m', |m.left|) && m'.left[|m.left|] == a && m'.right[|m.left|] == b
  {
  }

  lemma LiveNext(m: Merges, i: nat)
    requires i < |m.left| && i < |m.right|
    ensures m.Live(i + 1) == m.Live(i) - {m.left[i], m.right[i]} + {m.n + i}
  {
  }

  lemma ExtendStep(m: Merges, a: nat, b: nat, i: nat)
    requires m.Valid() && i <= |m.left| < m.n - 1
    requires TwoLightest(m.w, m.Live(|m.left|), a, b)
    ensures Extend(m, a, b).Step(i)
  {
    LiveDependsOnPrefix(m, Extend(m, a, b), i);
    if i < |m.left| {
      assert m.Step(i);
      LongerWeights(m.w, m.w[a] + m.w[b], m.Live(i), m.left[i], m.right[i]);
    } else {
      LongerWeights(m.w, m.w[a] + m.w[b], m.Live(i), a, b);
    }
  }

  lemma StepFacts(m: Merges, i: nat)
    requires m.Valid() && i < |m.left|
    ensures m.left[i] in m.Live(i) && m.right[i] in m.Live(i) && m.left[i] != m.right[i]
    ensures m.left[i] < m.n + i && m.right[i] < m.n + i && m.n + i !in m.Live(i)
    ensures m.w[m.n + i] == m.w[m.left[i]] + m.w[m.right[i]]
    ensures TwoLightest(m.w, m.Live(i), m.left[i], m.right[i])
    ensures m.Live(i + 1) == m.Live(i) - {m.left[i], m.right[i]} + {m.n + i}
  {
    assert m.Step(i);
    LiveBelow(m, i);
  }

  // ---- weights ----

  lemma {:induction false} LiveWeight(m: Merges, i: nat)
    requires m.Valid() && i <= |m.left|
    ensures LiveSum(m.w, m.Live(i)) == Sum(m.w[..m.n])
    decreases i
  {
    if i == 0 {
      LeavesSum(m.w, m.n);
    } else {
      LiveWeight(m, i - 1);
      StepFacts(m, i - 1);
      LiveSumReplacePair(m.w, m.Live(i - 1), m.left[i - 1], m.right[i - 1], m.n + i - 1);
    }
  }

  lemma {:induction false} LeavesSum(t: seq<int>, n: nat)
    requires n <= |t|
    ensures LiveSum(t, Below(n)) == Sum(t[..n])
  {
    if |t| > n {
      LeavesSum(t[..|t| - 1], n);
      assert t[..|t| - 1][..n] == t[..n];
    } else if n > 0 {
      assert t[..n] == t;
      LeavesSum(t, n - 1);
      LiveSumGrow(t, Below(n - 1), n - 1);
    }
  }

  /** No merge overflows: the weight of a merged pair stays within the total. */
  lemma PairWithinTotal(m: Merges, a: nat, b: nat)
    requires m.Valid() && TwoLightest(m.w, m.Live(|m.left|), a, b)
    ensures 0 <= m.w[a] + m.w[b] <= Sum(m.w[..m.n])
  {
    var live := m.Live(|m.left|);
    LiveWeight(m, |m.left|);
    var rest := live - {a, b};
    LiveSumGrow(m.w, rest, a);
    LiveSumGrow(m.w, rest + {a}, b);
    assert rest + {a} + {b} == live;
    LiveSumNonNegative(m.w, rest);
  }

  lemma {:induction false} Positive(m: Merges, x: nat)
    requires m.Valid() && x < |m.w|
    ensures m.w[x] >= 1
  {
    if x >= m.n {
      assert m.Step(x - m.n);
      LiveBelow(m, x - m.n);
      Positive(m, m.left[x - m.n]);
      Positive(m, m.right[x - m.n]);
    }
  }

  /** What survives step i weighs at least as much as what it merged. */
  lemma SurvivorsAreHeavier(m: Merges, i: nat, x: nat)
    requires m.Valid() && i < |m.left| && x in m.Live(i + 1)
    ensures x < |m.w| && m.right[i] < |m.w| && m.w[m.right[i]] <= m.w[x]
  {
    StepFacts(m, i);
    if x == m.n + i {
      Positive(m, m.left[i]);
    } else {
      assert x in m.Live(i);
    }
  }

  lemma InnerWeightsGrowByOne(m: Merges, i: nat)
    requires m.Valid() && i + 1 < |m.left|
    ensures m.w[m.n + i] <= m.w[m.n + i + 1]
  {
    var a, b := m.left[i + 1], m.right[i + 1];
    assert m.Step(i) && m.Step(i + 1);
    SurvivorsAreHeavier(m, i, a);
    SurvivorsAreHeavier(m, i, b);
  }

  /** The weights of the inner nodes never decrease. */
  lemma {:induction false} InnerWeightsGrow(m: Merges, i: nat, k: nat)
    requires m.Valid() && i <= k < |m.left|
    ensures m.w[m.n + i] <= m.w[m.n + k]
    decreases k
  {
    if i < k {
      InnerWeightsGrow(m, i, k - 1);
      InnerWeightsGrowByOne(m, k - 1);
    }
  }

  // ---- parents, depths and codes ----

  /** The arrays filled by the builder say the same as the record of merges. */
  ghost predicate Linked(m: Merges, parent: seq<nat>, binary: seq<Bit>)
  {
    && |m.left| == |m.right|
    && |parent| == |binary|
    && forall i: nat {:trigger m.left[i]} {:trigger m.right[i]} :: i < |m.left| ==>
        && m.left[i] < |parent| && parent[m.left[i]] == m.n + i && binary[m.left[i]] == 0
        && m.right[i] < |parent| && parent[m.right[i]] == m.n + i && binary[m.right[i]] == 1
  }

  ghost predicate Rooted(parent: seq<nat>, root: nat)
  {
    root < |parent| && forall x: nat :: x < root ==> x < parent[x] <= root
  }

  lemma ParentsAreLater(m: Merges, parent: seq<nat>, binary: seq<Bit>)
    requires m.Complete() && Linked(m, parent, binary) && m.Root() < |parent|
    ensures Rooted(parent, m.Root())
  {
    OnlyRootIsLeft(m);
    forall x: nat | x < m.Root()
      ensures x < parent[x] <= m.Root()
    {
      var i := MergedBy(m, m.n - 1, x);
      assert m.Step(i);
      LiveBelow(m, i);
    }
  }

  /** Number of edges from node x up to the root. */
  function Depth(parent: seq<nat>, root: nat, x: nat): nat
    requires Rooted(parent, root) && x <= root
    decreases root - x
  {
    if x == root then 0 else Depth(parent, root, parent[x]) + 1
  }

  /** The bits on the way from the root down to node x. */
  function CodeOf(parent: seq<nat>, binary: seq<Bit>, root: nat, x: nat): (c: Code)
    requires Rooted(parent, root) && x <= root && |binary| == |parent|
    ensures |c| == Depth(parent, root, x)
    decreases root - x
  {
    if x == root then [] else CodeOf(parent, binary, root, parent[x]) + [binary[x]]
  }

  /** The nodes on the way from the root (left out) down to node x. */
  function PathTo(parent: seq<nat>, root: nat, x: nat): (p: seq<nat>)
    requires Rooted(parent, root) && x <= root
    ensures |p| == Depth(parent, root, x)
    ensures x < root ==> p != [] && p[|p| - 1] == x
    decreases root - x
  {
    if x == root then [] else PathTo(parent, root, parent[x]) + [x]
  }

  // ---- depth is bounded because weights grow like Fibonacci numbers ----

  function Fib(n: nat): nat
  {
    if n < 2 then n else Fib(n - 1) + Fib(n - 2)
  }

  /** A grandparent weighs at least as much as parent and child together. */
  lemma GrandparentWeight(m: Merges, j: nat, k: nat, x: nat)
    requires m.Valid() && j < |m.left| && k < |m.left|
    requires x == m.left[j] || x == m.right[j]
    requires m.n + j == m.left[k] || m.n + j == m.right[k]
    ensures x < |m.w| && m.w[m.n + k] >= m.w[m.n + j] + m.w[x]
  {
    StepFacts(m, j);
    StepFacts(m, k);
    var u := if m.n + j == m.left[k] then m.right[k] else m.left[k];
    assert m.w[m.n + k] == m.w[m.n + j] + m.w[u];
    if u < m.n + j {
      LiveBefore(m, j + 1, k, u);
      SurvivorsAreHeavier(m, j, u);
    } else {
      InnerWeightsGrow(m, j, u - m.n);
    }
  }

  ghost predicate TreeOf(m: Merges, parent: seq<nat>, binary: seq<Bit>)
  {
    && m.Complete()
    && Linked(m, parent, binary)
    && Rooted(parent, m.Root())
  }

  lemma ParentStep(m: Merges, parent: seq<nat>, binary: seq<Bit>, x: nat) returns (j: nat)
    requires TreeOf(m, parent, binary) && x < m.Root()
    ensures j < |m.left| && parent[x] == m.n + j
    ensures x == if binary[x] == 0 then m.left[j] else m.right[j]
    ensures m.Step(j)
  {
    OnlyRootIsLeft(m);
    j := MergedBy(m, m.n - 1, x);
  }

  /** Two siblings have different bits, and the one with bit 1 is not the lighter one. */
  lemma HeavierHasBitOne(m: Merges, parent: seq<nat>, binary: seq<Bit>, x: nat, y: nat)
    requires TreeOf(m, parent, binary) && x < m.Root() && y < m.Root() && x != y && parent[x] == parent[y]
    ensures binary[x] != binary[y]
    ensures binary[x] == 0 ==> m.w[x] <= m.w[y]
  {
    var i := ParentStep(m, parent, binary, x);
    var j := ParentStep(m, parent, binary, y);
    assert i == j && m.Step(i);
  }

  /** The ancestor of x that lies d levels up. */
  ghost function Ancestor(parent: seq<nat>, root: nat, x: nat, d: nat): (y: nat)
    requires Rooted(parent, root) && x <= root && d <= Depth(parent, root, x)
    ensures y <= root && Depth(parent, root, y) == Depth(parent, root, x) - d
  {
    if d == 0 then x else parent[Ancestor(parent, root, x, d - 1)]
  }

  lemma ParentWeight(m: Merges, parent: seq<nat>, binary: seq<Bit>, x: nat)
    requires TreeOf(m, parent, binary) && x < m.Root()
    ensures m.w[parent[x]] >= 2
  {
    var j := ParentStep(m, parent, binary, x);
    StepFacts(m, j);
    Positive(m, m.left[j]);
    Positive(m, m.right[j]);
  }

  lemma ParentsWeights(m: Merges, parent: seq<nat>, binary: seq<Bit>, x: nat)
    requires TreeOf(m, parent, binary) && x < m.Root() && parent[x] < m.Root()
    ensures m.w[parent[parent[x]]] >= m.w[parent[x]] + m.w[x]
  {
    var j := ParentStep(m, parent, binary, x);
    var k := ParentStep(m, parent, binary, parent[x]);
    GrandparentWeight(m, j, k, x);
  }

  lemma {:induction false} AncestorWeight(m: Merges, parent: seq<nat>, binary: seq<Bit>, x: nat, d: nat)
    requires TreeOf(m, parent, binary) && x < m.n && d <= Depth(parent, m.Root(), x)
    ensures m.w[Ancestor(parent, m.Root(), x, d)] >= Fib(d + 2)
  {
    if d == 1 {
      ParentWeight(m, parent, binary, x);
    } else if d > 1 {
      var z := Ancestor(parent, m.Root(), x, d - 2);
      assert Ancestor(parent, m.Root(), x, d - 1) == parent[z];
      ParentsWeights(m, parent, binary, z);
      AncestorWeight(m, parent, binary, x, d - 1);
      AncestorWeight(m, parent, binary, x, d - 2);
    }
  }

  /** A leaf at depth d needs a total weight of at least the (d + 2)-nd Fibonacci number. */
  lemma DepthNeedsWeight(m: Merges, parent: seq<nat>, binary: seq<Bit>, x: nat)
    requires TreeOf(m, parent, binary) && x < m.n
    ensures Fib(Depth(parent, m.Root(), x) + 2) <= Sum(m.w[..m.n])
  {
    var d := Depth(parent, m.Root(), x);
    AncestorWeight(m, parent, binary, x, d);
    LiveWeight(m, m.n - 1);
    RootAlone(m, m.w);
  }

  lemma {:induction false} LiveSumEmpty(t: seq<int>)
    ensures LiveSum(t, {}) == 0
  {
    if t != [] {
      LiveSumEmpty(t[..|t| - 1]);
    }
  }

  lemma {:induction false} FibGrows(a: nat, b: nat)
    requires a <= b
    ensures Fib(a) <= Fib(b)
  {
    if a < b {
      FibGrows(a, b - 1);
    }
  }

  // ---- optimality ----

  /** Total weight of the inner nodes made from step i on. */
  ghost function InnerWeight(m: Merges, i: nat): int
    requires m.Complete() && i <= m.n - 1
    decreases m.n - 1 - i
  {
    if i == m.n - 1 then 0 else m.w[m.n + i] + InnerWeight(m, i + 1)
  }

  /** Merging step i turns feasible lengths into feasible lengths, saving the new node's weight. */
  lemma StepSavesWeight(m: Merges, i: nat, l: seq<nat>, D: nat) returns (l': seq<nat>)
    requires m.Complete() && i < m.n - 1
    requires |l| == |m.w| && Feasible(l, m.Live(i), D)
    ensures |l'| == |m.w| && Feasible(l', m.Live(i + 1), D)
    ensures Cost(m.w, l', m.Live(i + 1)) + m.w[m.n + i] <= Cost(m.w, l, m.Live(i))
  {
    StepFacts(m, i);
    l' := MergeLightest(m.w, l, m.Live(i), D, m.left[i], m.right[i], m.n + i);
  }

  /** No feasible lengths cost less than the inner weight still to be made. */
  lemma {:induction false} InnerWeightIsLowerBound(m: Merges, i: nat, l: seq<nat>, D: nat)
    requires m.Complete() && i <= m.n - 1
    requires |l| == |m.w| && Feasible(l, m.Live(i), D)
    ensures InnerWeight(m, i) <= Cost(m.w, l, m.Live(i))
    decreases m.n - 1 - i
  {
    if i == m.n - 1 {
      RootAlone(m, Products(m.w, l));
      Positive(m, m.Root());
    } else {
      var l' := StepSavesWeight(m, i, l, D);
      InnerWeightIsLowerBound(m, i + 1, l', D);
    }
  }

  ghost function Depths(parent: seq<nat>, root: nat): (l: seq<nat>)
    requires Rooted(parent, root)
    ensures |l| == root + 1 && forall x :: 0 <= x <= root ==> l[x] == Depth(parent, root, x)
  {
    seq(root + 1, x requires 0 <= x <= root => Depth(parent, root, x))
  }

  lemma RootAlone(m: Merges, t: seq<int>)
    requires m.Complete() && m.Root() < |t|
    ensures LiveSum(t, m.Live(m.n - 1)) == t[m.Root()]
  {
    OnlyRootIsLeft(m);
    LiveSumGrow(t, {}, m.Root());
    assert {} + {m.Root()} == {m.Root()};
    LiveSumEmpty(t);
  }

  ghost predicate DepthsWithin(m: Merges, parent: seq<nat>, D: nat)
    requires m.n >= 1 && Rooted(parent, m.Root())
  {
    forall x: nat :: x <= m.Root() ==> Depth(parent, m.Root(), x) <= D
  }

  lemma BuiltDepthsStep(m: Merges, parent: seq<nat>, binary: seq<Bit>, i: nat, D: nat)
    requires TreeOf(m, parent, binary) && i < m.n - 1
    requires DepthsWithin(m, parent, D)
    ensures Cost(m.w, Depths(parent, m.Root()), m.Live(i))
         == Cost(m.w, Depths(parent, m.Root()), m.Live(i + 1)) + m.w[m.n + i]
    ensures Units(Depths(parent, m.Root()), m.Live(i), D) == Units(Depths(parent, m.Root()), m.Live(i + 1), D)
  {
    var l := Depths(parent, m.Root());
    StepFacts(m, i);
    var a, b := m.left[i], m.right[i];
    assert l[a] == l[m.n + i] + 1 && l[b] == l[m.n + i] + 1;
    MergeSiblings(m.w, l, m.Live(i), D, a, b, m.n + i);
  }

  lemma BuiltDepthsAtRoot(m: Merges, parent: seq<nat>, D: nat)
    requires m.Complete() && Rooted(parent, m.Root())
    ensures Cost(m.w, Depths(parent, m.Root()), m.Live(m.n - 1)) == 0
    ensures Units(Depths(parent, m.Root()), m.Live(m.n - 1), D) == Pow2(D)
  {
    RootAlone(m, Products(m.w, Depths(parent, m.Root())));
    RootAlone(m, Shares(Depths(parent, m.Root()), D));
  }

  /** The depths in the built tree cost exactly the inner weight and use the unit exactly. */
  lemma {:induction false} BuiltDepths(m: Merges, parent: seq<nat>, binary: seq<Bit>, i: nat, D: nat)
    requires TreeOf(m, parent, binary) && i <= m.n - 1
    requires DepthsWithin(m, parent, D)
    ensures Cost(m.w, Depths(parent, m.Root()), m.Live(i)) == InnerWeight(m, i)
    ensures Units(Depths(parent, m.Root()), m.Live(i), D) == Pow2(D)
    decreases m.n - 1 - i
  {
    if i == m.n - 1 {
      BuiltDepthsAtRoot(m, parent, D);
    } else {
      BuiltDepths(m, parent, binary, i + 1, D);
      BuiltDepthsStep(m, parent, binary, i, D);
    }
  }

  /** Huffman optimality on lengths: whatever satisfies Kraft's inequality costs at least as much. */
  lemma BuiltDepthsAreOptimal(m: Merges, parent: seq<nat>, binary: seq<Bit>, l: seq<nat>, D: nat)
    requires TreeOf(m, parent, binary)
    requires |l| == |m.w| && Feasible(l, m.Live(0), D)
    ensures Cost(m.w, Depths(parent, m.Root()), m.Live(0)) <= Cost(m.w, l, m.Live(0))
  {
    forall x: nat | x <= m.Root()
      ensures Depth(parent, m.Root(), x) <= m.Root()
    {
      DepthBelowRoot(parent, m.Root(), x);
    }
    BuiltDepths(m, parent, binary, 0, m.Root());
    InnerWeightIsLowerBound(m, 0, l, D);
  }

  lemma {:induction false} DepthBelowRoot(parent: seq<nat>, root: nat, x: nat)
    requires Rooted(parent, root) && x <= root
    ensures Depth(parent, root, x) <= root - x
    decreases root - x
  {
    if x < root {
      DepthBelowRoot(parent, root, parent[x]);
    }
  }
}
