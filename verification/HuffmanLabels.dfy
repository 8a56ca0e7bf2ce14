/** What the labels of a dictionary promise, and that the labels read off a built tree keep it. */
module HuffmanLabels {
  import opened Options
  import opened Sums
  import opened PrefixCodes
  import opened GreedyMerging
  import opened HuffmanTree
  import opened HuffmanCodes

  function Lengths(codes: seq<Code>): (l: seq<nat>)
    ensures |l| == |codes| && forall i :: 0 <= i < |codes| ==> l[i] == |codes[i]|
  {
    seq(|codes|, i requires 0 <= i < |codes| => |codes[i]|)
  }

  /** Number of bits needed to write the whole text: frequency times code length. */
  ghost function TextLength(freq: seq<int>, codes: seq<Code>): int
    requires |freq| == |codes|
  {
    Sum(Products(freq, Lengths(codes)))
  }

  /** No prefix-free family of codes writes the text in fewer bits. */
  ghost predicate Optimal(freq: seq<int>, codes: seq<Code>)
    requires |freq| == |codes|
  {
    forall rival: seq<Code> :: |rival| == |freq| && PrefixFree(rival) ==>
      TextLength(freq, codes) <= TextLength(freq, rival)
  }

  /** Inner nodes are in one-to-one correspondence with the proper prefixes of codes. */
  ghost predicate PointsArePrefixes(labels: seq<HuffLabelInfo>)
    requires forall u :: 0 <= u < |labels| ==> |labels[u].point| == |labels[u].code|
  {
    forall u, v, j, k ::
      0 <= u < |labels| && 0 <= v < |labels| && 0 <= j < |labels[u].code| && 0 <= k < |labels[v].code| ==>
      (labels[u].point[j] == labels[v].point[k] <==> labels[u].code[..j] == labels[v].code[..k])
  }

  ghost predicate WellFormed(labels: seq<HuffLabelInfo>, maxLength: nat)
  {
    forall u :: 0 <= u < |labels| ==>
      && 1 <= labels[u].codelen == |labels[u].code| == |labels[u].point| <= maxLength
      && forall j :: 0 <= j < |labels[u].point| ==> 0 <= labels[u].point[j] < |labels| - 1
  }

  /** Everything the encoder promises about the labels of a dictionary. */
  ghost predicate GoodLabels(freq: seq<int>, labels: seq<HuffLabelInfo>, maxLength: nat)
  {
    && |labels| == |freq|
    && WellFormed(labels, maxLength)
    && PrefixFree(Codes(labels))
    && LengthsWithin(Codes(labels), maxLength)
    && KraftUnits(Codes(labels), maxLength) == Pow2(maxLength)
    && PointsArePrefixes(labels)
    && Optimal(freq, Codes(labels))
  }

  // ---- sums in word order and in frequency order ----

  ghost predicate Permutation(order: seq<nat>, n: nat)
  {
    && |order| == n
    && (forall a :: 0 <= a < n ==> order[a] < n)
    && (forall a, b :: 0 <= a < b < n ==> order[a] != order[b])
  }

  /** The first k positions of the order. */
  ghost function FirstOf(order: seq<nat>, k: nat): set<nat>
    requires k <= |order|
  {
    if k == 0 then {} else FirstOf(order, k - 1) + {order[k - 1]}
  }

  lemma {:induction false} PlaceOf(order: seq<nat>, k: nat, x: nat) returns (a: nat)
    requires k <= |order| && x in FirstOf(order, k)
    ensures a < k && order[a] == x
  {
    if order[k - 1] == x {
      a := k - 1;
    } else {
      a := PlaceOf(order, k - 1, x);
    }
  }

  lemma {:induction false} NotPlaced(order: seq<nat>, k: nat, x: nat)
    requires k <= |order| && forall a :: 0 <= a < k ==> order[a] != x
    ensures x !in FirstOf(order, k)
  {
    if k > 0 {
      NotPlaced(order, k - 1, x);
    }
  }

  lemma {:induction false} FirstOfSize(order: seq<nat>, n: nat, k: nat)
    requires Permutation(order, n) && k <= n
    ensures FirstOf(order, k) <= Below(n) && |FirstOf(order, k)| == k
    ensures k < n ==> order[k] !in FirstOf(order, k)
  {
    if k > 0 {
      FirstOfSize(order, n, k - 1);
    }
    if k < n {
      NotPlaced(order, k, order[k]);
    }
  }

  lemma {:induction false} SumInOrder(t: seq<int>, s: seq<int>, order: seq<nat>, k: nat)
    requires Permutation(order, |t|) && |s| >= k && k <= |t|
    requires forall a :: 0 <= a < k ==> s[a] == t[order[a]]
    ensures Sum(s[..k]) == LiveSum(t, FirstOf(order, k))
  {
    if k == 0 {
      LiveSumEmpty(t);
    } else {
      SumInOrder(t, s, order, k - 1);
      assert s[..k][..k - 1] == s[..k - 1];
      FirstOfSize(order, |t|, k - 1);
      LiveSumGrow(t, FirstOf(order, k - 1), order[k - 1]);
    }
  }

  lemma FullSet(s: set<nat>, n: nat)
    requires s <= Below(n) && |s| == n
    ensures s == Below(n)
  {
    assert |Below(n) - s| == 0;
  }

  /** Summing in any order of the positions gives the same. */
  lemma PermutedSum(t: seq<int>, s: seq<int>, order: seq<nat>)
    requires Permutation(order, |t|) && |s| >= |t|
    requires forall a :: 0 <= a < |t| ==> s[a] == t[order[a]]
    ensures LiveSum(s, Below(|t|)) == Sum(t)
  {
    SumInOrder(t, s, order, |t|);
    FirstOfSize(order, |t|, |t|);
    FullSet(FirstOf(order, |t|), |t|);
    LeavesSum(s, |t|);
    LeavesSum(t, |t|);
    assert t[..|t|] == t;
  }

  lemma CostInWordOrder(w: seq<int>, l: seq<nat>, freq: seq<int>, lens: seq<nat>, order: seq<nat>)
    requires |w| == |l| >= |freq| == |lens| && Permutation(order, |freq|)
    requires forall a :: 0 <= a < |freq| ==> w[a] == freq[order[a]] && l[a] == lens[order[a]]
    ensures Cost(w, l, Below(|freq|)) == Sum(Products(freq, lens))
  {
    PermutedSum(Products(freq, lens), Products(w, l), order);
  }

  lemma UnitsInWordOrder(l: seq<nat>, codes: seq<Code>, order: seq<nat>, D: nat)
    requires |l| >= |codes| && Permutation(order, |codes|) && LengthsWithin(codes, D)
    requires forall a :: 0 <= a < |codes| ==> l[a] == |codes[order[a]]|
    ensures Units(l, Below(|codes|), D) == KraftUnits(codes, D)
  {
    PermutedSum(Shares(Lengths(codes), D), Shares(l, D), order);
    KraftIsSum(codes, D);
  }

  lemma {:induction false} KraftIsSum(codes: seq<Code>, D: nat)
    requires LengthsWithin(codes, D)
    ensures KraftUnits(codes, D) == Sum(Shares(Lengths(codes), D))
  {
    if codes != [] {
      KraftIsSum(codes[1..], D);
      var head := [Share(|codes[0]|, D)];
      assert Shares(Lengths(codes), D) == head + Shares(Lengths(codes[1..]), D);
      SumAppend(head, Shares(Lengths(codes[1..]), D));
      assert Sum(head) == head[0] by {
        assert head[..0] == [];
      }
    }
  }

  // ---- from the tree to the labels ----

  /** Word order[a] carries the label of leaf a, and leaf a the word's frequency. */
  ghost predicate LabelsOfTree(m: Merges, parent: seq<nat>, binary: seq<Bit>,
                               freq: seq<int>, order: seq<nat>, labels: seq<HuffLabelInfo>)
  {
    && TreeOf(m, parent, binary)
    && |freq| == |labels| == m.n && Permutation(order, m.n)
    && (forall a :: 0 <= a < m.n ==> m.w[a] == freq[order[a]])
    && (forall a :: 0 <= a < m.n ==> labels[order[a]] == LabelOf(parent, binary, m.n, a))
  }

  lemma LeafOfWord(order: seq<nat>, n: nat, u: nat) returns (a: nat)
    requires Permutation(order, n) && u < n
    ensures a < n && order[a] == u
  {
    FirstOfSize(order, n, n);
    FullSet(FirstOf(order, n), n);
    a := PlaceOf(order, n, u);
  }

  ghost function MaxLength(codes: seq<Code>): (D: nat)
    ensures LengthsWithin(codes, D)
  {
    if codes == [] then 0
    else
      var rest := MaxLength(codes[..|codes| - 1]);
      var len := |codes[|codes| - 1]|;
      assert forall i :: 0 <= i < |codes| - 1 ==> codes[i] == codes[..|codes| - 1][i];
      if len > rest then len else rest
  }

  ghost function LengthsAtLeaves(codes: seq<Code>, order: seq<nat>, size: nat): (l: seq<nat>)
    requires Permutation(order, |codes|) && size >= |codes|
    ensures |l| == size
    ensures forall a :: 0 <= a < |codes| ==> l[a] == |codes[order[a]]|
  {
    seq(size, a requires 0 <= a < size => if a < |codes| then |codes[order[a]]| else 0)
  }

  lemma LabelsCost(m: Merges, parent: seq<nat>, binary: seq<Bit>,
                   freq: seq<int>, order: seq<nat>, labels: seq<HuffLabelInfo>)
    requires LabelsOfTree(m, parent, binary, freq, order, labels)
    ensures Cost(m.w, Depths(parent, m.Root()), m.Live(0)) == TextLength(freq, Codes(labels))
  {
    CostInWordOrder(m.w, Depths(parent, m.Root()), freq, Lengths(Codes(labels)), order);
  }

  /** Any prefix-free family gives feasible lengths for the leaves, of the same cost. */
  lemma RivalIsFeasible(m: Merges, freq: seq<int>, order: seq<nat>, rival: seq<Code>) returns (l: seq<nat>, D: nat)
    requires m.Complete() && Permutation(order, m.n) && |freq| == |rival| == m.n && PrefixFree(rival)
    requires forall a :: 0 <= a < m.n ==> m.w[a] == freq[order[a]]
    ensures |l| == |m.w| && Feasible(l, m.Live(0), D)
    ensures Cost(m.w, l, m.Live(0)) == TextLength(freq, rival)
  {
    D := MaxLength(rival);
    l := LengthsAtLeaves(rival, order, |m.w|);
    UnitsInWordOrder(l, rival, order, D);
    KraftInequality(rival, D);
    CostInWordOrder(m.w, l, freq, Lengths(rival), order);
  }

  lemma LabelsBeat(m: Merges, parent: seq<nat>, binary: seq<Bit>,
                   freq: seq<int>, order: seq<nat>, labels: seq<HuffLabelInfo>, rival: seq<Code>)
    requires LabelsOfTree(m, parent, binary, freq, order, labels)
    requires |rival| == |freq| && PrefixFree(rival)
    ensures TextLength(freq, Codes(labels)) <= TextLength(freq, rival)
  {
    var l, D := RivalIsFeasible(m, freq, order, rival);
    BuiltDepthsAreOptimal(m, parent, binary, l, D);
    LabelsCost(m, parent, binary, freq, order, labels);
  }

  /** Huffman optimality, on the labels themselves. */
  lemma LabelsAreOptimal(m: Merges, parent: seq<nat>, binary: seq<Bit>,
                         freq: seq<int>, order: seq<nat>, labels: seq<HuffLabelInfo>)
    requires LabelsOfTree(m, parent, binary, freq, order, labels)
    ensures Optimal(freq, Codes(labels))
  {
    forall rival: seq<Code> | |rival| == |freq| && PrefixFree(rival)
      ensures TextLength(freq, Codes(labels)) <= TextLength(freq, rival)
    {
      LabelsBeat(m, parent, binary, freq, order, labels, rival);
    }
  }

  lemma LabelsArePrefixFree(m: Merges, parent: seq<nat>, binary: seq<Bit>,
                            freq: seq<int>, order: seq<nat>, labels: seq<HuffLabelInfo>)
    requires LabelsOfTree(m, parent, binary, freq, order, labels)
    ensures PrefixFree(Codes(labels))
  {
    forall u, v | 0 <= u < m.n && 0 <= v < m.n && u != v
      ensures !(labels[u].code <= labels[v].code)
    {
      var a := LeafOfWord(order, m.n, u);
      var b := LeafOfWord(order, m.n, v);
      LeafCodesApart(m, parent, binary, a, b);
    }
  }

  ghost predicate LeavesWithin(parent: seq<nat>, root: nat, n: nat, maxDepth: nat)
    requires Rooted(parent, root)
  {
    forall a: nat :: a < n && a <= root ==> Depth(parent, root, a) <= maxDepth
  }

  /** No node lies deeper than the deepest leaf. */
  lemma {:induction false} DepthBelowLeaves(m: Merges, parent: seq<nat>, binary: seq<Bit>, D: nat, x: nat)
    requires TreeOf(m, parent, binary) && x <= m.Root()
    requires LeavesWithin(parent, m.Root(), m.n, D)
    ensures Depth(parent, m.Root(), x) <= D
  {
    if x >= m.n {
      var child := m.left[x - m.n];
      StepFacts(m, x - m.n);
      assert parent[child] == x;
      DepthBelowLeaves(m, parent, binary, D, child);
    }
  }

  lemma LabelsSpendTheUnit(m: Merges, parent: seq<nat>, binary: seq<Bit>,
                           freq: seq<int>, order: seq<nat>, labels: seq<HuffLabelInfo>, D: nat)
    requires LabelsOfTree(m, parent, binary, freq, order, labels)
    requires LengthsWithin(Codes(labels), D)
    ensures KraftUnits(Codes(labels), D) == Pow2(D)
  {
    forall a: nat | a < m.n
      ensures Depth(parent, m.Root(), a) <= D
    {
      assert |Codes(labels)[order[a]]| <= D;
    }
    forall x: nat | x <= m.Root()
      ensures Depth(parent, m.Root(), x) <= D
    {
      DepthBelowLeaves(m, parent, binary, D, x);
    }
    BuiltDepths(m, parent, binary, 0, D);
    UnitsInWordOrder(Depths(parent, m.Root()), Codes(labels), order, D);
  }

  /** Equal points mean equal prefixes, because a node has one code and a code leads to one node. */
  lemma PointsMatch(m: Merges, parent: seq<nat>, binary: seq<Bit>, a: nat, b: nat, j: nat, k: nat,
                    p: HuffLabelInfo, q: HuffLabelInfo)
    requires TreeOf(m, parent, binary) && a < m.n && b < m.n
    requires p == LabelOf(parent, binary, m.n, a) && q == LabelOf(parent, binary, m.n, b)
    requires j < |p.code| && k < |q.code|
    ensures j < |p.point| && k < |q.point|
    ensures p.point[j] == q.point[k] <==> p.code[..j] == q.code[..k]
  {
    var x := NodeOfPrefix(m, parent, binary, a, j, p);
    var y := NodeOfPrefix(m, parent, binary, b, k, q);
    OneCodeOneNode(m, parent, binary, x, y, p.code[..j], q.code[..k]);
  }

  lemma OneCodeOneNode(m: Merges, parent: seq<nat>, binary: seq<Bit>, x: nat, y: nat, c: Code, d: Code)
    requires TreeOf(m, parent, binary) && x <= m.Root() && y <= m.Root() && |binary| == |parent|
    requires c == CodeOf(parent, binary, m.Root(), x) && Walk(m, c) == Some(x)
    requires d == CodeOf(parent, binary, m.Root(), y) && Walk(m, d) == Some(y)
    ensures x == y <==> c == d
  {
  }

  lemma LabelsIdentifyPrefixes(m: Merges, parent: seq<nat>, binary: seq<Bit>,
                               freq: seq<int>, order: seq<nat>, labels: seq<HuffLabelInfo>)
    requires LabelsOfTree(m, parent, binary, freq, order, labels)
    ensures forall u :: 0 <= u < |labels| ==> |labels[u].point| == |labels[u].code|
    ensures PointsArePrefixes(labels)
  {
    forall u | 0 <= u < m.n
      ensures |labels[u].point| == |labels[u].code|
    {
      var a := LeafOfWord(order, m.n, u);
    }
    forall u, v, j, k | 0 <= u < |labels| && 0 <= v < |labels| && 0 <= j < |labels[u].code| && 0 <= k < |labels[v].code|
      ensures labels[u].point[j] == labels[v].point[k] <==> labels[u].code[..j] == labels[v].code[..k]
    {
      var a := LeafOfWord(order, m.n, u);
      var b := LeafOfWord(order, m.n, v);
      PointsMatch(m, parent, binary, a, b, j, k, labels[u], labels[v]);
    }
  }

  lemma LabelsWellFormed(m: Merges, parent: seq<nat>, binary: seq<Bit>,
                         freq: seq<int>, order: seq<nat>, labels: seq<HuffLabelInfo>, maxLength: nat)
    requires LabelsOfTree(m, parent, binary, freq, order, labels)
    requires LeavesWithin(parent, m.Root(), m.n, maxLength)
    ensures WellFormed(labels, maxLength) && LengthsWithin(Codes(labels), maxLength)
  {
    forall u | 0 <= u < m.n
      ensures 1 <= labels[u].codelen == |labels[u].code| == |labels[u].point| <= maxLength
      ensures forall j :: 0 <= j < |labels[u].point| ==> 0 <= labels[u].point[j] < m.n - 1
    {
      var a := LeafOfWord(order, m.n, u);
      forall j | 0 <= j < |labels[u].point|
        ensures 0 <= labels[u].point[j] < m.n - 1
      {
        var x := NodeOfPrefix(m, parent, binary, a, j, labels[u]);
      }
    }
  }

  /** All promises together, for labels whose codes fit maxLength bits. */
  lemma LabelsAreGood(m: Merges, parent: seq<nat>, binary: seq<Bit>,
                      freq: seq<int>, order: seq<nat>, labels: seq<HuffLabelInfo>, maxLength: nat)
    requires LabelsOfTree(m, parent, binary, freq, order, labels)
    requires LeavesWithin(parent, m.Root(), m.n, maxLength)
    ensures GoodLabels(freq, labels, maxLength)
  {
    LabelsWellFormed(m, parent, binary, freq, order, labels, maxLength);
    LabelsArePrefixFree(m, parent, binary, freq, order, labels);
    LabelsSpendTheUnit(m, parent, binary, freq, order, labels, maxLength);
    LabelsIdentifyPrefixes(m, parent, binary, freq, order, labels);
    LabelsAreOptimal(m, parent, binary, freq, order, labels);
  }
}
