/** Why merging two lightest nodes is never a mistake. Nodes carry weights; an assignment of
    code lengths to the live nodes is feasible when its Kraft sum, scaled by 2^D, fits in 2^D. */
module GreedyMerging {
  import opened Sums

  /** Sum of the entries of t at live positions. */
  ghost function LiveSum(t: seq<int>, live: set<nat>): int
  {
    if t == [] then 0
    else LiveSum(t[..|t| - 1], live) + if |t| - 1 in live then t[|t| - 1] else 0
  }

  lemma {:induction false} LiveSumSet(t: seq<int>, live: set<nat>, k: nat, v: int)
    requires k < |t|
    ensures LiveSum(t[k := v], live) == LiveSum(t, live) + if k in live then v - t[k] else 0
  {
    var last := |t| - 1;
    if k == last {
      assert t[k := v][..last] == t[..last];
    } else {
      assert t[k := v][..last] == t[..last][k := v];
      LiveSumSet(t[..last], live, k, v);
    }
  }

  lemma {:induction false} LiveSumGrow(t: seq<int>, live: set<nat>, k: nat)
    requires k !in live
    ensures LiveSum(t, live + {k}) == LiveSum(t, live) + if k < |t| then t[k] else 0
  {
    if t != [] {
      LiveSumGrow(t[..|t| - 1], live, k);
    }
  }

  lemma {:induction false} LiveSumNonNegative(t: seq<int>, live: set<nat>)
    requires forall i :: 0 <= i < |t| && i in live ==> 0 <= t[i]
    ensures 0 <= LiveSum(t, live)
  {
    if t != [] {
      LiveSumNonNegative(t[..|t| - 1], live);
    }
  }

  lemma LiveSumReplacePair(t: seq<int>, live: set<nat>, a: nat, b: nat, c: nat)
    requires a in live && b in live && a != b && c !in live
    requires a < |t| && b < |t| && c < |t|
    ensures LiveSum(t, live - {a, b} + {c}) == LiveSum(t, live) - t[a] - t[b] + t[c]
  {
    var rest := live - {a, b};
    LiveSumGrow(t, rest, a);
    LiveSumGrow(t, rest + {a}, b);
    assert rest + {a} + {b} == live;
    LiveSumGrow(t, rest, c);
  }

  ghost function Products(w: seq<int>, l: seq<nat>): (t: seq<int>)
    requires |w| == |l|
    ensures |t| == |w| && forall i :: 0 <= i < |w| ==> t[i] == w[i] * l[i]
  {
    seq(|w|, i requires 0 <= i < |w| => w[i] * l[i])
  }

  /** Weighted length of the live nodes. */
  ghost function Cost(w: seq<int>, l: seq<nat>, live: set<nat>): int
    requires |w| == |l|
  {
    LiveSum(Products(w, l), live)
  }

  /** The scaled share 2^(D - length) of a code of the given length. */
  ghost function Share(length: nat, D: nat): int
  {
    if length <= D then Pow2(D - length) else 0
  }

  ghost function Shares(l: seq<nat>, D: nat): (t: seq<int>)
    ensures |t| == |l| && forall i :: 0 <= i < |l| ==> t[i] == Share(l[i], D)
  {
    seq(|l|, i requires 0 <= i < |l| => Share(l[i], D))
  }

  ghost function Units(l: seq<nat>, live: set<nat>, D: nat): int
  {
    LiveSum(Shares(l, D), live)
  }

  ghost predicate Within(l: seq<nat>, live: set<nat>, M: nat)
  {
    forall i :: i in live ==> i < |l| && l[i] <= M
  }

  ghost predicate Feasible(l: seq<nat>, live: set<nat>, D: nat)
  {
    Within(l, live, D) && Units(l, live, D) <= Pow2(D)
  }

  lemma SetLengthCost(w: seq<int>, l: seq<nat>, live: set<nat>, k: nat, x: nat)
    requires |w| == |l| && k < |l|
    ensures Cost(w, l[k := x], live) == Cost(w, l, live) + if k in live then w[k] * x - w[k] * l[k] else 0
  {
    assert Products(w, l[k := x]) == Products(w, l)[k := w[k] * x];
    LiveSumSet(Products(w, l), live, k, w[k] * x);
  }

  lemma SetLengthUnits(l: seq<nat>, live: set<nat>, D: nat, k: nat, x: nat)
    requires k < |l|
    ensures Units(l[k := x], live, D) == Units(l, live, D) + if k in live then Share(x, D) - Share(l[k], D) else 0
  {
    assert Shares(l[k := x], D) == Shares(l, D)[k := Share(x, D)];
    LiveSumSet(Shares(l, D), live, k, Share(x, D));
  }

  lemma ParentProduct(wa: int, wb: int, wc: int, x: nat)
    requires wc == wa + wb
    ensures wc * x == wa * (x + 1) + wb * (x + 1) - wc
  {
  }

  /** Replacing siblings a and b by their parent c, one level up, costs their joint weight less. */
  lemma MergeSiblings(w: seq<int>, l: seq<nat>, live: set<nat>, D: nat, a: nat, b: nat, c: nat)
    requires |w| == |l| && a in live && b in live && c !in live && a != b
    requires a < |l| && b < |l| && c < |l|
    requires l[a] == l[b] == l[c] + 1 <= D
    requires w[c] == w[a] + w[b]
    ensures Cost(w, l, live - {a, b} + {c}) == Cost(w, l, live) - w[c]
    ensures Units(l, live - {a, b} + {c}, D) == Units(l, live, D)
  {
    LiveSumReplacePair(Products(w, l), live, a, b, c);
    LiveSumReplacePair(Shares(l, D), live, a, b, c);
    ParentProduct(w[a], w[b], w[c], l[c]);
  }

  lemma SwapProducts(wa: int, wb: int, la: nat, lb: nat)
    requires wa <= wb && la <= lb
    ensures wa * lb + wb * la <= wa * la + wb * lb
  {
    assert (wb - wa) * (lb - la) >= 0;
  }

  lemma Swap(w: seq<int>, l: seq<nat>, live: set<nat>, D: nat, a: nat, b: nat) returns (m: seq<nat>)
    requires |w| == |l| && a in live && b in live && a != b
    requires Feasible(l, live, D)
    requires w[a] <= w[b] && l[a] <= l[b]
    ensures m == l[a := l[b]][b := l[a]]
    ensures Feasible(m, live, D) && Cost(w, m, live) <= Cost(w, l, live)
  {
    var h := l[a := l[b]];
    m := h[b := l[a]];
    SetLengthCost(w, l, live, a, l[b]);
    SetLengthCost(w, h, live, b, l[a]);
    SetLengthUnits(l, live, D, a, l[b]);
    SetLengthUnits(h, live, D, b, l[a]);
    SwapProducts(w[a], w[b], l[a], l[b]);
  }

  lemma NextMultiple(s: int, c: nat, x: nat, u: nat)
    requires s == c * u
    ensures s + x * u == (c + x) * u
  {
  }

  /** Lengths below M contribute multiples of the share of length M - 1. */
  lemma {:induction false} SharesAreMultiples(l: seq<nat>, live: set<nat>, D: nat, M: nat) returns (c: nat)
    requires 1 <= M <= D
    requires forall i :: 0 <= i < |l| && i in live ==> l[i] < M
    ensures LiveSum(Shares(l, D), live) == c * Pow2(D - M + 1)
  {
    if l == [] {
      c := 0;
    } else {
      var last := |l| - 1;
      c := SharesAreMultiples(l[..last], live, D, M);
      assert Shares(l, D)[..last] == Shares(l[..last], D);
      if last in live {
        var x := Pow2(M - 1 - l[last]);
        Pow2Add(M - 1 - l[last], D - M + 1);
        NextMultiple(LiveSum(Shares(l[..last], D), live), c, x, Pow2(D - M + 1));
        c := c + x;
      }
    }
  }

  lemma PositiveFactor(x: int, y: nat)
    requires x * y > 0
    ensures x > 0
  {
  }

  lemma RoundUp(c: nat, u: nat, p: nat)
    requires c * (2 * u) + u <= p * (2 * u)
    requires u >= 1
    ensures c * (2 * u) + 2 * u <= p * (2 * u)
  {
    assert (p - c) * (2 * u) == p * (2 * u) - c * (2 * u);
    PositiveFactor(p - c, 2 * u);
    assert (c + 1) * (2 * u) <= p * (2 * u);
  }

  /** A single deepest node can be shortened: the Kraft sum had room for it. */
  lemma Shorten(w: seq<int>, l: seq<nat>, live: set<nat>, D: nat, M: nat, x: nat) returns (m: seq<nat>)
    requires |w| == |l| && x in live && Feasible(l, live, D) && 1 <= M <= D
    requires forall i :: i in live ==> 0 <= w[i] && (i != x ==> l[i] < M)
    requires l[x] == M
    ensures m == l[x := M - 1]
    ensures Feasible(m, live, D) && Cost(w, m, live) <= Cost(w, l, live)
  {
    m := l[x := M - 1];
    SetLengthCost(w, l, live, x, M - 1);
    assert w[x] * (M - 1) == w[x] * M - w[x];
    SetLengthUnits(l, live, D, x, M - 1);
    var rest := live - {x};
    LiveSumGrow(Shares(l, D), rest, x);
    assert rest + {x} == live;
    var c := SharesAreMultiples(l, rest, D, M);
    Pow2Add(M - 1, D - M + 1);
    RoundUp(c, Pow2(D - M), Pow2(M - 1));
  }

  ghost predicate TwoLightest(w: seq<int>, live: set<nat>, p: nat, q: nat)
  {
    && (forall i :: i in live ==> i < |w| && 0 <= w[i])
    && p in live && q in live && p != q && w[p] <= w[q]
    && (forall i :: i in live && i != p && i != q ==> w[q] <= w[i])
  }

  /** Two lightest nodes can be taken to the same, greatest depth at no extra cost. */
  lemma {:induction false} SinkLightest(w: seq<int>, l: seq<nat>, live: set<nat>, D: nat, M: nat, p: nat, q: nat)
    returns (m: seq<nat>)
    requires |w| == |l| && TwoLightest(w, live, p, q)
    requires Feasible(l, live, D) && Within(l, live, M) && M <= D
    ensures |m| == |l| && Feasible(m, live, D)
    ensures Cost(w, m, live) <= Cost(w, l, live)
    ensures 1 <= m[p] == m[q]
    decreases M
  {
    if M == 0 {
      TwoRootsDoNotFit(l, live, D, p, q);
      assert false;
    } else if forall i :: i in live ==> l[i] < M {
      m := SinkLightest(w, l, live, D, M - 1, p, q);
    } else {
      var x :| x in live && l[x] == M;
      if forall i :: i in live && i != x ==> l[i] < M {
        m := Shorten(w, l, live, D, M, x);
        var r := SinkLightest(w, m, live, D, M - 1, p, q);
        m := r;
      } else {
        var y :| y in live && y != x && l[y] == M;
        m := SinkPair(w, l, live, D, M, p, q, x, y);
      }
    }
  }

  lemma TwoRootsDoNotFit(l: seq<nat>, live: set<nat>, D: nat, p: nat, q: nat)
    requires p in live && q in live && p != q
    requires Within(l, live, 0)
    ensures Units(l, live, D) > Pow2(D)
  {
    var t := Shares(l, D);
    var rest := live - {p, q};
    LiveSumGrow(t, rest, p);
    LiveSumGrow(t, rest + {p}, q);
    assert rest + {p} + {q} == live;
    LiveSumNonNegative(t, rest);
  }

  lemma SinkPair(w: seq<int>, l: seq<nat>, live: set<nat>, D: nat, M: nat, p: nat, q: nat, x: nat, y: nat)
    returns (m: seq<nat>)
    requires |w| == |l| && TwoLightest(w, live, p, q)
    requires Feasible(l, live, D) && Within(l, live, M) && 1 <= M <= D
    requires x in live && y in live && x != y && l[x] == l[y] == M
    ensures |m| == |l| && Feasible(m, live, D)
    ensures Cost(w, m, live) <= Cost(w, l, live)
    ensures m[p] == m[q] == M
  {
    var other := y;
    m := l;
    if p != x && p != y {
      m := Swap(w, l, live, D, p, x);
    } else if p == y {
      other := x;
    }
    assert m[p] == M && m[other] == M && other != p;
    if other != q {
      var r := Swap(w, m, live, D, q, other);
      m := r;
    }
  }

  /** The greedy step: from any feasible lengths, feasible lengths after merging a lightest pair. */
  lemma MergeLightest(w: seq<int>, l: seq<nat>, live: set<nat>, D: nat, p: nat, q: nat, c: nat) returns (m: seq<nat>)
    requires |w| == |l| && TwoLightest(w, live, p, q)
    requires Feasible(l, live, D)
    requires c !in live && c < |w| && w[c] == w[p] + w[q]
    ensures |m| == |l| && Feasible(m, live - {p, q} + {c}, D)
    ensures Cost(w, m, live - {p, q} + {c}) + w[c] <= Cost(w, l, live)
  {
    var s := SinkLightest(w, l, live, D, D, p, q);
    m := s[c := s[p] - 1];
    SetLengthCost(w, s, live, c, s[p] - 1);
    SetLengthUnits(s, live, D, c, s[p] - 1);
    MergeSiblings(w, m, live, D, p, q, c);
  }
}
