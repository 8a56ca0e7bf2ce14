/** The word encoder: builds a Huffman tree over a dictionary and labels every word with its
    code and with the inner nodes that code passes. */
module HuffmanEncoder {
  import opened Sequences
  import opened Sums
  import opened PrefixCodes
  import opened GreedyMerging
  import opened HuffmanTree
  import opened HuffmanCodes
  import opened HuffmanLabels

  const MAX_CODE_LENGTH := 100
  const SENTINEL := 1_000_000_000_000_000
  const INT64_MAX := 0x7fff_ffff_ffff_ffff

  const UINT_MAX := 0xffff_ffff

  /** What the tree builder needs of the frequencies: positive, below the sentinel, and with a total that
      fits the 64-bit counters. */
  ghost predicate Countable(freq: seq<int>)
  {
    && (forall i :: 0 <= i < |freq| ==> 0 < freq[i] < SENTINEL)
    && Sum(freq) <= INT64_MAX
  }

  ghost predicate Descending(count: seq<int>)
  {
    forall i, j :: 0 <= i <= j < |count| ==> count[i] >= count[j]
  }

  /** Node x still waits in the leaf queue 0..pos1 or in the merged queue pos2..hi-1. */
  ghost predicate Waiting(x: int, pos1: int, pos2: int, hi: int)
  {
    0 <= x <= pos1 || pos2 <= x < hi
  }

  /** The two queues as they lie in the count array: leaves descending, merged nodes ascending,
      unused places holding the sentinel. */
  ghost predicate Queues(count: seq<int>, n: nat, hi: nat)
  {
    && n <= hi < 2 * n <= |count|
    && Descending(count[..n])
    && (forall i :: 0 <= i < n ==> count[i] < SENTINEL)
    && (forall i, j :: n <= i <= j < hi ==> count[i] <= count[j])
    && (forall i :: hi <= i < 2 * n ==> count[i] == SENTINEL)
  }

  ghost predicate IsSmallest(count: seq<int>, min: int, pos1: int, pos2: int, hi: nat)
  {
    && pos1 < hi <= |count| && 0 <= pos2 && Waiting(min, pos1, pos2, hi)
    && forall x :: Waiting(x, pos1, pos2, hi) ==> count[min] <= count[x]
  }

  /** Taking x off the queues, only x stops waiting. */
  ghost predicate Leaves(x: int, pos1: int, pos2: int, pos1': int, pos2': int, hi: nat)
  {
    forall y :: Waiting(y, pos1', pos2', hi) <==> Waiting(y, pos1, pos2, hi) && y != x
  }

  /** Takes a smallest waiting node; never the sentinel, and a leaf only if all merged nodes are heavier. */
  method TakeSmallest(count: array<int>, n: nat, pos1: int, pos2: int, ghost hi: nat)
    returns (min: int, pos1': int, pos2': int)
    requires Queues(count[..], n, hi)
    requires -1 <= pos1 < n && n <= pos2 <= hi
    requires pos1 >= 0 || pos2 < hi
    ensures IsSmallest(count[..], min, pos1, pos2, hi) && Leaves(min, pos1, pos2, pos1', pos2', hi)
    ensures min < n ==> forall x :: pos2 <= x < hi ==> count[min] < count[x]
    ensures -1 <= pos1' < n && n <= pos2' <= hi
    ensures pos2' - pos1' == pos2 - pos1 + 1
  {
    assert forall i :: 0 <= i < n ==> count[..][..n][i] == count[i];
    if pos1 >= 0 {
      if count[pos1] < count[pos2] {
        min, pos1', pos2' := pos1, pos1 - 1, pos2;
      } else {
        min, pos1', pos2' := pos2, pos1, pos2 + 1;
      }
    } else {
      min, pos1', pos2' := pos2, pos1, pos2 + 1;
    }
  }

  ghost predicate NonNegative(count: seq<int>, hi: nat)
  {
    hi <= |count| && forall x :: 0 <= x < hi ==> 0 <= count[x]
  }

  ghost predicate LiveAreWaiting(live: set<nat>, pos1: int, pos2: int, hi: int)
  {
    forall x: nat :: x in live <==> Waiting(x, pos1, pos2, hi)
  }

  /** Picks two smallest waiting nodes, one after the other, and takes them off the queues. */
  method TakeTwoSmallest(count: array<int>, pos1: int, pos2: int, n: nat, i: nat, ghost live: set<nat>)
    returns (min1i: nat, min2i: nat, q1: int, q2: int)
    requires i < n - 1 && Queues(count[..], n, n + i)
    requires NonNegative(count[..], n + i)
    requires -1 <= pos1 < n && n <= pos2 <= n + i && pos2 - pos1 == 2 * i + 1
    requires LiveAreWaiting(live, pos1, pos2, n + i)
    ensures min1i < n + i && min2i < n + i
    ensures TwoLightest(count[..], live, min1i, min2i)
    ensures LiveAreWaiting(live - {min1i, min2i}, q1, q2, n + i)
    ensures -1 <= q1 < n && n <= q2 <= n + i && q2 - q1 == 2 * i + 3
  {
    ghost var c: seq<int>, hi := count[..], n + i;
    var p1, p2;
    min1i, p1, p2 := TakeSmallest(count, n, pos1, pos2, hi);
    min2i, q1, q2 := TakeSmallest(count, n, p1, p2, hi);
    FirstTwoAreLightest(c, live, pos1, pos2, p1, p2, q1, q2, hi, min1i, min2i);
  }

  /** The smallest, and then the smallest of the others. */
  lemma FirstTwoAreLightest(count: seq<int>, live: set<nat>, pos1: int, pos2: int, p1: int, p2: int,
                            q1: int, q2: int, hi: nat, a: nat, b: nat)
    requires LiveAreWaiting(live, pos1, pos2, hi) && NonNegative(count, hi)
    requires IsSmallest(count, a, pos1, pos2, hi) && Leaves(a, pos1, pos2, p1, p2, hi)
    requires IsSmallest(count, b, p1, p2, hi) && Leaves(b, p1, p2, q1, q2, hi)
    ensures a < hi && b < hi && TwoLightest(count, live, a, b)
    ensures LiveAreWaiting(live - {a, b}, q1, q2, hi)
  {
    assert Waiting(b, p1, p2, hi) && Waiting(b, pos1, pos2, hi);
    assert a in live && b in live && a != b;
    forall x | x in live
      ensures x < hi && (x != a && x != b ==> count[b] <= count[x])
    {
      assert Waiting(x, pos1, pos2, hi);
    }
  }

  /** The builder's arrays and queue positions after |m.left| merges. */
  ghost predicate Building(m: Merges, count: seq<int>, binary: seq<Bit>, parent: seq<nat>, pos1: int, pos2: int)
  {
    && m.Valid()
    && |count| == |binary| == |parent| == 2 * m.n + 1
    && count[..|m.w|] == m.w
    && (forall x :: |m.w| <= x < 2 * m.n ==> count[x] == SENTINEL)
    && -1 <= pos1 < m.n && m.n <= pos2 <= |m.w|
    && pos2 - pos1 == 2 * |m.left| + 1
    && LiveAreWaiting(m.Live(|m.left|), pos1, pos2, |m.w|)
    && Linked(m, parent, binary)
    && Untouched(m, binary)
  }

  /** Nodes without a parent still carry bit 0. */
  ghost predicate Untouched(m: Merges, binary: seq<Bit>)
    requires |m.left| <= |m.right|
  {
    forall x: nat :: x < |binary| && (x >= |m.w| || x in m.Live(|m.left|)) ==> binary[x] == 0
  }

  ghost predicate FitsCounters(m: Merges)
    requires |m.w| >= m.n
  {
    && Descending(m.w[..m.n])
    && (forall x :: 0 <= x < m.n ==> m.w[x] < SENTINEL)
    && Sum(m.w[..m.n]) <= INT64_MAX
  }

  lemma QueuesReady(m: Merges, count: seq<int>)
    requires m.Valid() && Descending(m.w[..m.n]) && |m.left| < m.n - 1
    requires forall x :: 0 <= x < m.n ==> m.w[x] < SENTINEL
    requires |count| >= 2 * m.n && count[..|m.w|] == m.w
    requires forall x :: |m.w| <= x < 2 * m.n ==> count[x] == SENTINEL
    ensures Queues(count, m.n, |m.w|)
    ensures NonNegative(count, |m.w|)
  {
    forall x | 0 <= x < |m.w|
      ensures 0 <= count[x]
    {
      Positive(m, x);
      assert count[x] == m.w[x];
    }
    assert count[..m.n] == m.w[..m.n];
    forall i, j | m.n <= i <= j < |m.w|
      ensures count[i] <= count[j]
    {
      InnerWeightsGrow(m, i - m.n, j - m.n);
      assert count[i] == m.w[i] && count[j] == m.w[j];
    }
    forall i | 0 <= i < m.n
      ensures count[i] < SENTINEL
    {
      assert count[i] == m.w[i];
    }
  }

  lemma LinkMore(m: Merges, parent: seq<nat>, binary: seq<Bit>, a: nat, b: nat)
    requires m.Valid() && |m.left| < m.n - 1 && |m.w| < |parent|
    requires TwoLightest(m.w, m.Live(|m.left|), a, b)
    requires Linked(m, parent, binary) && binary[a] == 0
    ensures Linked(Extend(m, a, b), parent[a := |m.w|][b := |m.w|], binary[b := 1])
  {
    var m' := Extend(m, a, b);
    var p, q := parent[a := |m.w|][b := |m.w|], binary[b := 1];
    forall i: nat | i < |m'.left|
      ensures m'.left[i] < |p| && p[m'.left[i]] == m.n + i && q[m'.left[i]] == 0
      ensures m'.right[i] < |p| && p[m'.right[i]] == m.n + i && q[m'.right[i]] == 1
    {
      if i < |m.left| {
        assert m'.left[i] == m.left[i] && m'.right[i] == m.right[i];
        GoneForGood(m, i, |m.left|);
      }
    }
  }

  lemma UntouchedMore(m: Merges, binary: seq<Bit>, a: nat, b: nat)
    requires m.Valid() && |m.left| < m.n - 1 && b < |binary|
    requires TwoLightest(m.w, m.Live(|m.left|), a, b)
    requires Untouched(m, binary)
    ensures Extend(m, a, b).Valid() && Untouched(Extend(m, a, b), binary[b := 1])
  {
    ExtendValid(m, a, b);
    LiveBelow(m, |m.left|);
  }

  lemma WaitingMore(live: set<nat>, q1: int, q2: int, hi: nat)
    requires LiveAreWaiting(live, q1, q2, hi) && q1 < hi && q2 <= hi
    ensures LiveAreWaiting(live + {hi}, q1, q2, hi + 1)
  {
    forall x: nat | true
      ensures x in live + {hi} <==> Waiting(x, q1, q2, hi + 1)
    {
      assert Waiting(x, q1, q2, hi + 1) <==> Waiting(x, q1, q2, hi) || x == hi;
    }
  }

  /** The count array holds the weights, so two lightest nodes by count are so by weight. */
  lemma CountsAreWeights(m: Merges, count: seq<int>, a: nat, b: nat)
    requires m.Valid() && |m.w| <= |count| && count[..|m.w|] == m.w
    requires TwoLightest(count, m.Live(|m.left|), a, b)
    ensures TwoLightest(m.w, m.Live(|m.left|), a, b)
    ensures count[a] == m.w[a] && count[b] == m.w[b]
  {
    LiveBelow(m, |m.left|);
    assert forall x :: 0 <= x < |m.w| ==> count[x] == m.w[x];
  }

  lemma MergeKeepsBuilding(m: Merges, count: seq<int>, binary: seq<Bit>, parent: seq<nat>, pos1: int, pos2: int,
                           q1: int, q2: int, a: nat, b: nat,
                           count': seq<int>, binary': seq<Bit>, parent': seq<nat>)
    requires Building(m, count, binary, parent, pos1, pos2) && |m.left| < m.n - 1
    requires TwoLightest(count, m.Live(|m.left|), a, b) && a < |m.w| && b < |m.w|
    requires LiveAreWaiting(m.Live(|m.left|) - {a, b}, q1, q2, |m.w|)
    requires -1 <= q1 < m.n && m.n <= q2 <= |m.w| && q2 - q1 == pos2 - pos1 + 2
    requires count' == count[|m.w| := count[a] + count[b]]
    requires binary' == binary[b := 1] && parent' == parent[a := |m.w|][b := |m.w|]
    ensures Building(Extend(m, a, b), count', binary', parent', q1, q2)
  {
    CountsAreWeights(m, count, a, b);
    LinkMore(m, parent, binary, a, b);
    UntouchedMore(m, binary, a, b);
    ExtendValid(m, a, b);
    WaitingMore(m.Live(|m.left|) - {a, b}, q1, q2, |m.w|);
    assert count'[..|m.w| + 1] == Extend(m, a, b).w;
  }

  method PickTwo(count: array<int>, pos1: int, pos2: int, n: nat, i: nat, ghost m: Merges,
                 ghost binary: seq<Bit>, ghost parent: seq<nat>)
    returns (min1i: nat, min2i: nat, q1: int, q2: int)
    requires Building(m, count[..], binary, parent, pos1, pos2) && FitsCounters(m)
    requires n == m.n && i == |m.left| < n - 1
    ensures min1i < n + i && min2i < n + i && TwoLightest(count[..], m.Live(i), min1i, min2i)
    ensures LiveAreWaiting(m.Live(i) - {min1i, min2i}, q1, q2, n + i)
    ensures -1 <= q1 < n && n <= q2 <= n + i && q2 - q1 == pos2 - pos1 + 2
    ensures 0 <= count[min1i] + count[min2i] <= INT64_MAX
    ensures FitsCounters(Extend(m, min1i, min2i)) && Extend(m, min1i, min2i).w[..n] == m.w[..n]
  {
    QueuesReady(m, count[..]);
    min1i, min2i, q1, q2 := TakeTwoSmallest(count, pos1, pos2, n, i, m.Live(i));
    MergeFits(m, count[..], min1i, min2i);
  }

  /** One turn of the building loop. */
  method MergeTwoSmallest(count: array<int>, binary: array<Bit>, parent: array<nat>,
                          pos1: int, pos2: int, n: nat, i: nat, ghost m: Merges)
    returns (q1: int, q2: int, ghost m': Merges)
    requires Building(m, count[..], binary[..], parent[..], pos1, pos2) && FitsCounters(m)
    requires n == m.n && i == |m.left| < n - 1
    requires count as object != binary && count as object != parent && binary as object != parent
    modifies count, binary, parent
    ensures Building(m', count[..], binary[..], parent[..], q1, q2) && FitsCounters(m')
    ensures m'.n == n && |m'.left| == i + 1 && m'.w[..n] == m.w[..n]
  {
    ghost var c0: seq<int>, b0: seq<Bit>, p0: seq<nat> := count[..], binary[..], parent[..];
    var min1i, min2i;
    min1i, min2i, q1, q2 := PickTwo(count, pos1, pos2, n, i, m, b0, p0);
    assert 0 <= count[min1i] + count[min2i] <= INT64_MAX;
    m' := Extend(m, min1i, min2i);
    WriteMerge(count, binary, parent, min1i, min2i, n + i);
    MergeKeepsBuilding(m, c0, b0, p0, pos1, pos2, q1, q2, min1i, min2i, count[..], binary[..], parent[..]);
  }

  lemma MergeFits(m: Merges, count: seq<int>, a: nat, b: nat)
    requires m.Valid() && |m.w| <= |count| && count[..|m.w|] == m.w && FitsCounters(m)
    requires TwoLightest(count, m.Live(|m.left|), a, b)
    ensures a < |m.w| && b < |m.w|
    ensures 0 <= count[a] + count[b] <= INT64_MAX
    ensures Extend(m, a, b).w[..m.n] == m.w[..m.n] && FitsCounters(Extend(m, a, b))
  {
    CountsAreWeights(m, count, a, b);
    PairWithinTotal(m, a, b);
    assert Extend(m, a, b).w[..m.n] == m.w[..m.n];
  }

  /** Makes node c the parent of a (bit 0, already there) and b (bit 1). */
  method WriteMerge(count: array<int>, binary: array<Bit>, parent: array<nat>, a: nat, b: nat, c: nat)
    requires a < c && b < c < count.Length == binary.Length == parent.Length
    requires count as object != binary && count as object != parent && binary as object != parent
    modifies count, binary, parent
    ensures count[..] == old(count[..])[c := old(count[a]) + old(count[b])]
    ensures binary[..] == old(binary[..])[b := 1]
    ensures parent[..] == old(parent[..])[a := c][b := c]
  {
    count[c] := count[a] + count[b];
    parent[a] := c;
    parent[b] := c;
    binary[b] := 1;
  }

  /** Frequencies first, then sentinels for the nodes still to be made. */
  method FillCounts(freq: seq<int>, count: array<int>)
    requires count.Length == 2 * |freq| + 1
    modifies count
    ensures count[..|freq|] == freq
    ensures forall j :: |freq| <= j < 2 * |freq| ==> count[j] == SENTINEL
  {
    var n := |freq|;
    for i := 0 to n
      invariant forall j :: 0 <= j < i ==> count[j] == freq[j]
    {
      count[i] := freq[i];
    }
    for i := n to 2 * n
      invariant forall j :: 0 <= j < n ==> count[j] == freq[j]
      invariant forall j :: n <= j < i ==> count[j] == SENTINEL
    {
      count[i] := SENTINEL;
    }
  }

  /** vocab_size - 1, unsigned. */
  function Turns(n: nat): nat
  {
    if n == 0 then UINT_MAX else n - 1
  }

  /** The tree part of the builder: fills count, binary and parent in place. ok is false if one of its
      asserts fails, which happens exactly if there are fewer than two words. */
  method BuildTree(freq: seq<int>, count: array<int>, binary: array<Bit>, parent: array<nat>)
    returns (ok: bool, ghost m: Merges)
    requires Countable(freq) && Descending(freq)
    requires count.Length == binary.Length == parent.Length == 2 * |freq| + 1
    requires count as object != binary && count as object != parent && binary as object != parent
    requires forall i :: 0 <= i < binary.Length ==> binary[i] == 0
    modifies count, binary, parent
    ensures ok <==> |freq| >= 2
    ensures ok ==> m.Complete() && m.n == |freq| && m.w[..m.n] == freq
    ensures ok ==> TreeOf(m, parent[..], binary[..])
    ensures ok ==> count[..2 * m.n - 1] == m.w
  {
    var n := |freq|;
    FillCounts(freq, count);
    m := Merges(n, freq, [], []);
    assert freq[..n] == freq;
    var pos1, pos2 := n - 1, n;
    for i := 0 to Turns(n)
      invariant n < 2 ==> i == 0 && pos1 == n - 1 && pos2 == n
      invariant n >= 2 ==> Building(m, count[..], binary[..], parent[..], pos1, pos2) && FitsCounters(m)
      invariant n >= 2 ==> m.n == n && |m.left| == i && m.w[..n] == freq
    {
      if pos2 >= 2 * n - 1 {
        return false, m;
      }
      pos1, pos2, m := MergeTwoSmallest(count, binary, parent, pos1, pos2, n, i, m);
    }
    if n >= 2 {
      AllLeavesUsed(m, pos1, pos2);
      ParentsAreLater(m, parent[..], binary[..]);
    }
    ok := pos1 < 0;
  }

  lemma AllLeavesUsed(m: Merges, pos1: int, pos2: int)
    requires m.Complete() && LiveAreWaiting(m.Live(|m.left|), pos1, pos2, |m.w|) && m.n >= 2
    ensures pos1 < 0
  {
    OnlyRootIsLeft(m);
    assert !Waiting(0, pos1, pos2, |m.w|);
  }

  lemma FibTenOn(k: nat)
    ensures Fib(k + 10) >= 89 * Fib(k)
  {
    FibGrows(k, k + 1);
    assert Fib(k + 3) == 2 * Fib(k + 1) + Fib(k);
    assert Fib(k + 5) == 5 * Fib(k + 1) + 3 * Fib(k);
    assert Fib(k + 7) == 13 * Fib(k + 1) + 8 * Fib(k);
    assert Fib(k + 9) == 34 * Fib(k + 1) + 21 * Fib(k);
  }

  lemma LongCodesNeedMoreThan64Bits(k: nat)
    requires k > 100
    ensures Fib(k) > INT64_MAX
  {
    FibGrows(1, k - 100);
    FibTenOn(k - 100);
    FibTenOn(k - 90);
    FibTenOn(k - 80);
    FibTenOn(k - 70);
    FibTenOn(k - 60);
    FibTenOn(k - 50);
    FibTenOn(k - 40);
    FibTenOn(k - 30);
    FibTenOn(k - 20);
    FibTenOn(k - 10);
  }

  /** No code is longer than 98 bits, so the buffers of MAX_CODE_LENGTH places never overflow. */
  lemma DepthFitsBuffer(m: Merges, parent: seq<nat>, binary: seq<Bit>, a: nat)
    requires TreeOf(m, parent, binary) && a < m.n
    requires Sum(m.w[..m.n]) <= INT64_MAX
    ensures Depth(parent, m.Root(), a) <= 98 < MAX_CODE_LENGTH
  {
    DepthNeedsWeight(m, parent, binary, a);
    if Depth(parent, m.Root(), a) > 98 {
      LongCodesNeedMoreThan64Bits(Depth(parent, m.Root(), a) + 2);
    }
  }

  /** From a up to b the bits and nodes passed are those of code and point, read backwards. */
  ghost predicate Climbed(parents: seq<nat>, bits: seq<Bit>, root: nat, a: nat, b: nat, code: seq<Bit>, point: seq<nat>)
    requires Rooted(parents, root) && |bits| == |parents| && a <= root
  {
    && b <= root && |code| == |point|
    && CodeOf(parents, bits, root, a) == CodeOf(parents, bits, root, b) + Reverse(code)
    && PathTo(parents, root, a) == PathTo(parents, root, b) + Reverse(point)
  }

  lemma ClimbOneMore(parents: seq<nat>, bits: seq<Bit>, root: nat, a: nat, b: nat, code: seq<Bit>, point: seq<nat>)
    requires Rooted(parents, root) && |bits| == |parents| && a <= root
    requires Climbed(parents, bits, root, a, b, code, point) && b < root
    ensures Climbed(parents, bits, root, a, parents[b], code + [bits[b]], point + [b])
    ensures |code| < Depth(parents, root, a)
  {
    ReverseSnoc(code, bits[b]);
    ReverseSnoc(point, b);
    assert CodeOf(parents, bits, root, b) + Reverse(code)
        == CodeOf(parents, bits, root, parents[b]) + ([bits[b]] + Reverse(code));
    assert PathTo(parents, root, b) + Reverse(point) == PathTo(parents, root, parents[b]) + ([b] + Reverse(point));
  }

  lemma ReverseSnoc<T>(s: seq<T>, x: T)
    ensures Reverse(s + [x]) == [x] + Reverse(s)
  {
  }

  method WriteStep(code: array<Bit>, point: array<nat>, i: nat, bit: Bit, b: nat)
    requires i < code.Length && i < point.Length && code as object != point
    modifies code, point
    ensures code[..i + 1] == old(code[..i]) + [bit] && point[..i + 1] == old(point[..i]) + [b]
  {
    code[i] := bit;
    point[i] := b;
  }

  /** The walk from leaf a up to the root, leaving bits and nodes in the buffers, last first. */
  method WalkUp(a: nat, root: nat, binary: array<Bit>, parent: array<nat>, code: array<Bit>, point: array<nat>)
    returns (i: nat)
    requires binary.Length == parent.Length && Rooted(parent[..], root) && a < root
    requires code.Length == point.Length == MAX_CODE_LENGTH
    requires Depth(parent[..], root, a) <= MAX_CODE_LENGTH
    requires code != binary && point != parent && code as object != parent && point as object != binary
    requires code as object != point
    modifies code, point
    ensures i <= MAX_CODE_LENGTH
    ensures Climbed(parent[..], binary[..], root, a, root, code[..i], point[..i])
  {
    ghost var parents: seq<nat>, bits: seq<Bit> := parent[..], binary[..];
    var b := a;
    i := 0;
    while true
      invariant parent[..] == parents && binary[..] == bits
      invariant b < root && i < MAX_CODE_LENGTH
      invariant Climbed(parents, bits, root, a, b, code[..i], point[..i])
      decreases root - b
    {
      ClimbOneMore(parents, bits, root, a, b, code[..i], point[..i]);
      assert bits[b] == binary[b] && parents[b] == parent[b];
      WriteStep(code, point, i, binary[b], b);
      i := i + 1;
      b := parent[b];
      if b == root {
        break;
      }
      CodeLeft(parents, bits, root, a, b, code[..i], point[..i]);
    }
  }

  lemma ClimbedToRoot(parents: seq<nat>, bits: seq<Bit>, root: nat, a: nat, code: seq<Bit>, point: seq<nat>)
    requires Rooted(parents, root) && |bits| == |parents| && a <= root
    requires Climbed(parents, bits, root, a, root, code, point)
    ensures CodeOf(parents, bits, root, a) == Reverse(code) && PathTo(parents, root, a) == Reverse(point)
  {
  }

  lemma CodeLeft(parents: seq<nat>, bits: seq<Bit>, root: nat, a: nat, b: nat, code: seq<Bit>, point: seq<nat>)
    requires Rooted(parents, root) && |bits| == |parents| && a <= root
    requires Climbed(parents, bits, root, a, b, code, point) && b < root
    ensures |code| < Depth(parents, root, a)
  {
  }

  /** Turns the buffers, filled leaf first, into a label. */
  method MakeLabel(n: nat, i: nat, code: array<Bit>, point: array<nat>) returns (info: HuffLabelInfo)
    requires 0 < i <= code.Length && i <= point.Length && n >= 2
    ensures info == LabelFrom(Reverse(code[..i]), Reverse(point[..i]), n)
  {
    var codes: Code, points: seq<int> := [], [n - 2];
    for k := 0 to i
      invariant codes == Reverse(code[..i])[..k]
      invariant |points| == if k == 0 then 1 else k
      invariant points[0] == n - 2
      invariant forall j :: 1 <= j < |points| ==> points[j] == point[i - j] - n
    {
      codes := codes + [code[i - k - 1]];
      if k > 0 {
        points := points + [point[i - k] - n];
      }
    }
    info := HuffLabelInfo(i, codes, points);
  }

  /** Reads the label of leaf a off the arrays. */
  method ExtractLabel(a: nat, n: nat, binary: array<Bit>, parent: array<nat>) returns (info: HuffLabelInfo)
    requires n >= 2 && a < n
    requires binary.Length == parent.Length && Rooted(parent[..], 2 * n - 2)
    requires Depth(parent[..], 2 * n - 2, a) <= MAX_CODE_LENGTH
    ensures info == LabelOf(parent[..], binary[..], n, a)
  {
    var code := new Bit[MAX_CODE_LENGTH](_ => 0);
    var point := new nat[MAX_CODE_LENGTH](_ => 0);
    var i := WalkUp(a, 2 * n - 2, binary, parent, code, point);
    ClimbedToRoot(parent[..], binary[..], 2 * n - 2, a, code[..i], point[..i]);
    info := MakeLabel(n, i, code, point);
  }

  class HuffmanEncoder {
    // Frequency of every word of the dictionary.
    const freq: seq<int>
    var labels: seq<HuffLabelInfo>

    constructor (freq: seq<int>)
      ensures this.freq == freq && labels == []
    {
      this.freq := freq;
      labels := [];
    }

    /** Labels every word. The outcome of sorting the (word, frequency) pairs by falling frequency
        is a parameter: words of equal frequency may come in any order. ok is false if an assert fails. */
    method BuildHuffmanTreeFromDict(orderedWords: seq<(nat, int)>) returns (ok: bool)
      requires Countable(freq)
      requires SortedDictionary(orderedWords, freq)
      modifies this
      ensures ok <==> |freq| >= 2
      ensures ok ==> GoodLabels(freq, labels, MAX_CODE_LENGTH)
    {
      var n := |orderedWords|;
      SortedIsCountable(orderedWords, freq);
      var count := new int[2 * n + 1](_ => 0);
      var binary := new Bit[2 * n + 1](_ => 0);
      var parent := new nat[2 * n + 1](_ => 0);
      ghost var m;
      ok, m := BuildTree(Frequencies(orderedWords), count, binary, parent);
      if ok {
        labels := LabelTree(orderedWords, n, binary, parent, freq, m);
      }
    }
  }

  /** Labels all words once the tree is built. */
  method LabelTree(orderedWords: seq<(nat, int)>, n: nat, binary: array<Bit>, parent: array<nat>,
                   ghost freq: seq<int>, ghost m: Merges) returns (labels: seq<HuffLabelInfo>)
    requires Countable(freq) && SortedDictionary(orderedWords, freq) && n == |freq| == m.n
    requires TreeOf(m, parent[..], binary[..]) && m.w[..n] == Frequencies(orderedWords)
    ensures GoodLabels(freq, labels, MAX_CODE_LENGTH)
  {
    SortedIsCountable(orderedWords, freq);
    AllDepthsFit(m, parent[..], binary[..]);
    labels := LabelWords(orderedWords, n, binary, parent);
    LabelsAreGood(m, parent[..], binary[..], freq, Words(orderedWords), labels, MAX_CODE_LENGTH);
  }

  /** The first a words have their labels. */
  ghost predicate Labelled(labels: seq<HuffLabelInfo>, order: seq<nat>, parent: seq<nat>, binary: seq<Bit>,
                           n: nat, a: nat)
    requires n >= 2 && Permutation(order, n) && Rooted(parent, 2 * n - 2) && |binary| == |parent|
  {
    |labels| == n && a <= n && forall k :: 0 <= k < a ==> labels[order[k]] == LabelOf(parent, binary, n, k)
  }

  lemma LabelOneMore(labels: seq<HuffLabelInfo>, order: seq<nat>, parent: seq<nat>, binary: seq<Bit>, n: nat, a: nat)
    requires n >= 2 && Permutation(order, n) && Rooted(parent, 2 * n - 2) && |binary| == |parent|
    requires Labelled(labels, order, parent, binary, n, a) && a < n
    ensures Labelled(labels[order[a] := LabelOf(parent, binary, n, a)], order, parent, binary, n, a + 1)
  {
  }

  /** Reads the label of every leaf and files it under its word. */
  method LabelWords(orderedWords: seq<(nat, int)>, n: nat, binary: array<Bit>, parent: array<nat>)
    returns (labels: seq<HuffLabelInfo>)
    requires n >= 2 && Permutation(Words(orderedWords), n)
    requires binary.Length == parent.Length && Rooted(parent[..], 2 * n - 2)
    requires LeavesWithin(parent[..], 2 * n - 2, n, MAX_CODE_LENGTH)
    ensures |labels| == n
    ensures forall k :: 0 <= k < n ==> labels[Words(orderedWords)[k]] == LabelOf(parent[..], binary[..], n, k)
  {
    ghost var order := Words(orderedWords);
    labels := seq(n, _ => HuffLabelInfo(0, [], []));
    for a := 0 to n
      invariant Labelled(labels, order, parent[..], binary[..], n, a)
    {
      var info := ExtractLabel(a, n, binary, parent);
      LabelOneMore(labels, order, parent[..], binary[..], n, a);
      labels := labels[orderedWords[a].0 := info];
    }
  }

  function Frequencies(words: seq<(nat, int)>): (f: seq<int>)
    ensures |f| == |words| && forall a :: 0 <= a < |f| ==> f[a] == words[a].1
  {
    seq(|words|, a requires 0 <= a < |words| => words[a].1)
  }

  ghost function Words(words: seq<(nat, int)>): (f: seq<nat>)
    ensures |f| == |words| && forall a :: 0 <= a < |f| ==> f[a] == words[a].0
  {
    seq(|words|, a requires 0 <= a < |words| => words[a].0)
  }

  /** The order the words are sorted by: the more frequent word first. */
  predicate Compare(x: (nat, int), y: (nat, int))
  {
    if x.1 == 0 then true
    else if y.1 == 0 then false
    else x.1 > y.1
  }

  lemma CompareIsGreater(x: (nat, int), y: (nat, int))
    requires x.1 > 0 && y.1 > 0
    ensures Compare(x, y) <==> x.1 > y.1
  {
  }

  /** What a sorting order must be: irreflexive, transitive, and being incomparable is transitive too. */
  ghost predicate IsStrictWeakOrder(words: seq<(nat, int)>)
  {
    && (forall x :: x in words ==> !Compare(x, x))
    && (forall x, y, z :: x in words && y in words && z in words && Compare(x, y) && Compare(y, z) ==> Compare(x, z))
    && (forall x, y, z :: x in words && y in words && z in words
          && !Compare(x, y) && !Compare(y, x) && !Compare(y, z) && !Compare(z, y)
          ==> !Compare(x, z) && !Compare(z, x))
  }

  /** Compare is fit for sorting exactly when no word has frequency 0. */
  lemma CompareSortsPositive(words: seq<(nat, int)>)
    requires forall x :: x in words ==> x.1 >= 0
    ensures IsStrictWeakOrder(words) <==> forall x :: x in words ==> x.1 > 0
  {
    if exists x :: x in words && x.1 == 0 {
      var x :| x in words && x.1 == 0;
      assert Compare(x, x);
    }
  }

  /** Sorted: no later word is to come before an earlier one. */
  ghost predicate InOrder(words: seq<(nat, int)>)
  {
    forall a, b :: 0 <= a < b < |words| ==> !Compare(words[b], words[a])
  }

  /** Every word once, with its frequency, sorted. */
  ghost predicate SortedDictionary(words: seq<(nat, int)>, freq: seq<int>)
  {
    && Permutation(Words(words), |freq|)
    && (forall a :: 0 <= a < |words| ==> words[a].1 == freq[words[a].0])
    && InOrder(words)
  }

  lemma SortedIsCountable(words: seq<(nat, int)>, freq: seq<int>)
    requires Countable(freq) && SortedDictionary(words, freq)
    ensures Countable(Frequencies(words)) && Descending(Frequencies(words))
  {
    var sorted := Frequencies(words);
    forall a, b | 0 <= a <= b < |words|
      ensures sorted[a] >= sorted[b]
    {
      CompareIsGreater(words[b], words[a]);
    }
    PermutedSum(freq, sorted, Words(words));
    LeavesSum(sorted, |sorted|);
    assert sorted[..|sorted|] == sorted;
  }

  lemma AllDepthsFit(m: Merges, parent: seq<nat>, binary: seq<Bit>)
    requires TreeOf(m, parent, binary)
    requires Sum(m.w[..m.n]) <= INT64_MAX
    ensures LeavesWithin(parent, m.Root(), m.n, MAX_CODE_LENGTH)
  {
    forall a: nat | a < m.n
      ensures Depth(parent, m.Root(), a) <= MAX_CODE_LENGTH
    {
      DepthFitsBuffer(m, parent, binary, a);
    }
  }
}
