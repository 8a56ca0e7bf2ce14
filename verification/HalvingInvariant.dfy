/** What recursive halving keeps: before the round with distance d, the leader of group g holds, on
    the blocks of its aligned segment of 2d groups, the reduction over exactly the ranks whose
    groups are congruent to g modulo 2d. */
module HalvingInvariant {
  import opened Sums
  import opened DivMod
  import opened Buffers
  import opened Topology
  import opened Options
  import opened Reduction

  /** The ranks in groups congruent to g modulo m. */
  ghost function Ranks(k: nat, n: nat, g: nat, m: nat): (s: set<nat>)
    requires m > 0
    ensures forall r: nat :: r in s <==> r < n && GroupOf(k, n, r) >= 0 && GroupOf(k, n, r) % m == g % m
  {
    set r: nat | r < n && GroupOf(k, n, r) >= 0 && GroupOf(k, n, r) % m == g % m
  }

  /** First element of block b; the end of the data for b = n. */
  ghost function Off(blockStart: seq<nat>, size: nat, b: int): nat
    requires 0 <= b <= |blockStart|
  {
    if b == |blockStart| then size else blockStart[b]
  }

  lemma {:induction false} OffGrows(blockStart: seq<nat>, blockLen: seq<nat>, size: nat, a: nat, b: nat)
    requires Layout(blockStart, blockLen, size) && a <= b <= |blockStart|
    ensures Off(blockStart, size, a) <= Off(blockStart, size, b) <= size
    decreases b
  {
    if a < b {
      OffGrows(blockStart, blockLen, size, a, b - 1);
      OffNext(blockStart, blockLen, size, b - 1);
    }
    OffWithin(blockStart, blockLen, size, b);
  }

  lemma {:induction false} OffWithin(blockStart: seq<nat>, blockLen: seq<nat>, size: nat, b: nat)
    requires Layout(blockStart, blockLen, size) && b <= |blockStart|
    ensures Off(blockStart, size, b) <= size
    decreases |blockStart| - b
  {
    if b < |blockStart| {
      OffWithin(blockStart, blockLen, size, b + 1);
      assert b + 1 < |blockStart| ==> EndsAtNext(blockStart, blockLen, b);
    }
  }

  lemma OffNext(blockStart: seq<nat>, blockLen: seq<nat>, size: nat, r: nat)
    requires Layout(blockStart, blockLen, size) && r < |blockStart|
    ensures Off(blockStart, size, r) == blockStart[r]
    ensures Off(blockStart, size, r + 1) == blockStart[r] + blockLen[r] <= size
  {
    OffWithin(blockStart, blockLen, size, r + 1);
    assert r + 1 < |blockStart| ==> EndsAtNext(blockStart, blockLen, r);
  }

  /** On lo..hi the row is the reduction of the inputs of the ranks in s. */
  ghost predicate Holds<T>(row: seq<T>, red: (T, T) -> T, inputs: seq<seq<T>>, size: nat, lo: nat, hi: nat, s: set<nat>)
    requires SameSize(inputs, size)
  {
    && |row| == size && hi <= size
    && forall e :: lo <= e < hi ==> Fold(red, Column(inputs, size, e), s) == Some(row[e])
  }

  /** Combines src into the row from position at on: the reducer's in-place update. */
  function ReduceInto<T>(red: (T, T) -> T, row: seq<T>, at: nat, src: seq<T>): (t: seq<T>)
    requires at + |src| <= |row|
    ensures |t| == |row|
    ensures forall e :: 0 <= e < |row| ==>
      t[e] == if at <= e < at + |src| then red(src[e - at], row[e]) else row[e]
  {
    seq(|row|, e requires 0 <= e < |row| => if at <= e < at + |src| then red(src[e - at], row[e]) else row[e])
  }

  lemma HoldsLess<T>(row: seq<T>, red: (T, T) -> T, inputs: seq<seq<T>>, size: nat,
                     lo: nat, hi: nat, lo': nat, hi': nat, s: set<nat>)
    requires SameSize(inputs, size) && Holds(row, red, inputs, size, lo, hi, s)
    requires lo <= lo' && hi' <= hi
    ensures Holds(row, red, inputs, size, lo', hi', s)
  {
  }

  /** Reducing the same stretch over disjoint sets of ranks gives the stretch over their union. */
  lemma HoldsUnion<T(!new)>(mine: seq<T>, theirs: seq<T>, red: (T, T) -> T, inputs: seq<seq<T>>, size: nat,
                            lo: nat, hi: nat, s: set<nat>, t: set<nat>, u: set<nat>)
    requires Associative(red) && Commutative(red) && SameSize(inputs, size) && lo <= hi
    requires Holds(mine, red, inputs, size, lo, hi, s) && Holds(theirs, red, inputs, size, lo, hi, t)
    requires s !! t && u == s + t
    ensures Holds(ReduceInto(red, mine, lo, theirs[lo..hi]), red, inputs, size, lo, hi, u)
  {
    var row := ReduceInto(red, mine, lo, theirs[lo..hi]);
    forall e | lo <= e < hi
      ensures Fold(red, Column(inputs, size, e), u) == Some(row[e])
    {
      FoldUnion(red, Column(inputs, size, e), t, s);
      assert t + s == u;
    }
  }

  /** The ranks reduced after a round are those of both partners before it. */
  lemma RanksSplit(k: nat, n: nat, g: nat, d: nat)
    requires d > 0
    ensures Ranks(k, n, g, 2 * d) !! Ranks(k, n, Partner(g, d), 2 * d)
    ensures Ranks(k, n, g, d) == Ranks(k, n, g, 2 * d) + Ranks(k, n, Partner(g, d), 2 * d)
  {
    var p := Partner(g, d);
    forall r: nat | r < n && GroupOf(k, n, r) >= 0
      ensures r in Ranks(k, n, g, d) <==> r in Ranks(k, n, g, 2 * d) || r in Ranks(k, n, p, 2 * d)
      ensures !(r in Ranks(k, n, g, 2 * d) && r in Ranks(k, n, p, 2 * d))
    {
      ResiduesSplit(GroupOf(k, n, r), g, d);
    }
  }

  /** First and last element of the segment of d groups around g. */
  ghost function SegLo(k: nat, n: nat, blockStart: seq<nat>, size: nat, g: nat, d: nat): nat
    requires IsFloorLog(k, n) && |blockStart| == n && d > 0 && AlignDown(g, d) + d <= Pow2(k)
  {
    StartFacts(k, n);
    Off(blockStart, size, Start(k, n, AlignDown(g, d)))
  }

  ghost function SegHi(k: nat, n: nat, blockStart: seq<nat>, size: nat, g: nat, d: nat): nat
    requires IsFloorLog(k, n) && |blockStart| == n && d > 0 && AlignDown(g, d) + d <= Pow2(k)
  {
    StartFacts(k, n);
    Off(blockStart, size, Start(k, n, AlignDown(g, d) + d))
  }

  lemma SegOrder(k: nat, n: nat, blockStart: seq<nat>, blockLen: seq<nat>, size: nat, g: nat, d: nat)
    requires IsFloorLog(k, n) && Layout(blockStart, blockLen, size) && |blockStart| == n
    requires d > 0 && AlignDown(g, d) + d <= Pow2(k)
    ensures SegLo(k, n, blockStart, size, g, d) <= SegHi(k, n, blockStart, size, g, d) <= size
  {
    StartFacts(k, n);
    OffGrows(blockStart, blockLen, size, Start(k, n, AlignDown(g, d)), Start(k, n, AlignDown(g, d) + d));
  }

  /** Segments of groups that nest are segments of elements that nest. */
  lemma OffsetsNest(k: nat, n: nat, blockStart: seq<nat>, blockLen: seq<nat>, size: nat, a: nat, b: nat)
    requires IsFloorLog(k, n) && Layout(blockStart, blockLen, size) && |blockStart| == n && a <= b <= Pow2(k)
    ensures 0 <= Start(k, n, a) <= Start(k, n, b) <= n
    ensures Off(blockStart, size, Start(k, n, a)) <= Off(blockStart, size, Start(k, n, b))
  {
    StartFacts(k, n);
    OffGrows(blockStart, blockLen, size, Start(k, n, a), Start(k, n, b));
  }

  lemma SegmentsNest(k: nat, i: nat, g: nat)
    requires i < k && g < Pow2(k)
    ensures var d := Dist(k, i); var p := Partner(g, d);
            && p < Pow2(k) && AlignDown(p, 2 * d) == AlignDown(g, 2 * d)
            && AlignDown(g, 2 * d) <= AlignDown(g, d)
            && AlignDown(g, d) + d <= AlignDown(g, 2 * d) + 2 * d <= Pow2(k)
  {
    var d := Dist(k, i);
    StepInRange(k, i, g);
    PartnerFacts(g, d);
    HalfOfSegment(g, d);
  }

  /** The segment I keep lies within the segment I share with my partner. */
  lemma SegNests(k: nat, n: nat, blockStart: seq<nat>, blockLen: seq<nat>, size: nat, i: nat, g: nat)
    requires IsFloorLog(k, n) && Layout(blockStart, blockLen, size) && |blockStart| == n
    requires i < k && g < Pow2(k)
    ensures var d := Dist(k, i); var p := Partner(g, d);
            && p < Pow2(k)
            && AlignDown(g, d) + d <= Pow2(k) && AlignDown(g, 2 * d) + 2 * d <= Pow2(k)
            && AlignDown(p, 2 * d) == AlignDown(g, 2 * d)
            && SegLo(k, n, blockStart, size, g, 2 * d) <= SegLo(k, n, blockStart, size, g, d)
            && SegHi(k, n, blockStart, size, g, d) <= SegHi(k, n, blockStart, size, g, 2 * d)
  {
    var d := Dist(k, i);
    SegmentsNest(k, i, g);
    OffsetsNest(k, n, blockStart, blockLen, size, AlignDown(g, 2 * d), AlignDown(g, d));
    OffsetsNest(k, n, blockStart, blockLen, size, AlignDown(g, d) + d, AlignDown(g, 2 * d) + 2 * d);
  }

  /** The invariant for one group, with segments of m groups. */
  ghost predicate GroupHolds<T>(row: seq<T>, red: (T, T) -> T, inputs: seq<seq<T>>, size: nat,
                                k: nat, blockStart: seq<nat>, g: nat, m: nat)
    requires SameSize(inputs, size) && IsFloorLog(k, |inputs|) && |blockStart| == |inputs| && m > 0
  {
    var n := |inputs|;
    && AlignDown(g, m) + m <= Pow2(k)
    && Holds(row, red, inputs, size, SegLo(k, n, blockStart, size, g, m), SegHi(k, n, blockStart, size, g, m),
             Ranks(k, n, g, m))
  }

  /** One exchange between partners takes the invariant from segments of 2d groups to d groups. */
  lemma ExchangeKeeps<T(!new)>(mine: seq<T>, theirs: seq<T>, red: (T, T) -> T, inputs: seq<seq<T>>, size: nat,
                               k: nat, blockStart: seq<nat>, blockLen: seq<nat>, i: nat, g: nat, lo: nat, hi: nat)
    requires Associative(red) && Commutative(red) && SameSize(inputs, size) && IsFloorLog(k, |inputs|)
    requires Layout(blockStart, blockLen, size) && |blockStart| == |inputs| && i < k && g < Pow2(k)
    requires GroupHolds(mine, red, inputs, size, k, blockStart, g, 2 * Dist(k, i))
    requires GroupHolds(theirs, red, inputs, size, k, blockStart, Partner(g, Dist(k, i)), 2 * Dist(k, i))
    requires AlignDown(g, Dist(k, i)) + Dist(k, i) <= Pow2(k)
    requires lo == SegLo(k, |inputs|, blockStart, size, g, Dist(k, i))
    requires hi == SegHi(k, |inputs|, blockStart, size, g, Dist(k, i))
    ensures lo <= hi <= size && |mine| == |theirs| == size
    ensures GroupHolds(ReduceInto(red, mine, lo, theirs[lo..hi]), red, inputs, size, k, blockStart, g, Dist(k, i))
  {
    var n, d := |inputs|, Dist(k, i);
    var p := Partner(g, d);
    SegNests(k, n, blockStart, blockLen, size, i, g);
    SegOrder(k, n, blockStart, blockLen, size, g, d);
    var outerLo, outerHi := SegLo(k, n, blockStart, size, g, 2 * d), SegHi(k, n, blockStart, size, g, 2 * d);
    HoldsLess(mine, red, inputs, size, outerLo, outerHi, lo, hi, Ranks(k, n, g, 2 * d));
    HoldsLess(theirs, red, inputs, size, outerLo, outerHi, lo, hi, Ranks(k, n, p, 2 * d));
    RanksSplit(k, n, g, d);
    HoldsUnion(mine, theirs, red, inputs, size, lo, hi,
               Ranks(k, n, g, 2 * d), Ranks(k, n, p, 2 * d), Ranks(k, n, g, d));
  }

  // ---- before the first round and after the last ----

  lemma WholeSegment(k: nat, n: nat, blockStart: seq<nat>, size: nat, g: nat)
    requires IsFloorLog(k, n) && |blockStart| == n && n > 0 && blockStart[0] == 0 && g < Pow2(k)
    ensures AlignDown(g, Pow2(k)) == 0
    ensures SegLo(k, n, blockStart, size, g, Pow2(k)) == 0
    ensures SegHi(k, n, blockStart, size, g, Pow2(k)) == size
  {
    DivUnique(g, Pow2(k), 0, g);
    StartFacts(k, n);
  }

  lemma GroupRanks(k: nat, n: nat, g: nat)
    requires IsFloorLog(k, n) && g < Pow2(k)
    ensures forall r: nat :: r < n ==>
              (r in Ranks(k, n, g, Pow2(k)) <==> Start(k, n, g) <= r < Start(k, n, g + 1))
  {
    forall r: nat | r < n
      ensures r in Ranks(k, n, g, Pow2(k)) <==> Start(k, n, g) <= r < Start(k, n, g + 1)
    {
      GroupFacts(k, n, r);
      DivUnique(GroupOf(k, n, r), Pow2(k), 0, GroupOf(k, n, r));
      DivUnique(g, Pow2(k), 0, g);
      StartFacts(k, n);
    }
  }

  /** A group of one rank starts with that rank's own input. */
  lemma SingleHolds<T>(red: (T, T) -> T, inputs: seq<seq<T>>, size: nat, k: nat, blockStart: seq<nat>, g: nat)
    requires SameSize(inputs, size) && IsFloorLog(k, |inputs|) && |blockStart| == |inputs| && blockStart[0] == 0
    requires g < Pow2(k) && 0 <= Start(k, |inputs|, g)
    requires Start(k, |inputs|, g + 1) == Start(k, |inputs|, g) + 1 <= |inputs|
    ensures GroupHolds(inputs[Start(k, |inputs|, g)], red, inputs, size, k, blockStart, g, Pow2(k))
  {
    var n := |inputs|;
    var r: nat := Start(k, n, g);
    WholeSegment(k, n, blockStart, size, g);
    GroupRanks(k, n, g);
    forall e | 0 <= e < size
      ensures Fold(red, Column(inputs, size, e), Ranks(k, n, g, Pow2(k))) == Some(inputs[r][e])
    {
      FoldSameRanks(red, Column(inputs, size, e), Ranks(k, n, g, Pow2(k)), {r});
      FoldSingleton(red, Column(inputs, size, e), r);
    }
  }

  /** A pair starts with its leader having reduced its neighbour's input into its own. */
  lemma FoldPair<T(!new)>(red: (T, T) -> T, x: seq<T>, r: nat, s: set<nat>)
    requires Associative(red) && Commutative(red) && r + 1 < |x|
    requires forall q: nat :: q < |x| ==> (q in s <==> r <= q < r + 2)
    ensures Fold(red, x, s) == Some(red(x[r + 1], x[r]))
  {
    FoldSameRanks(red, x, s, {r + 1} + {r});
    FoldUnion(red, x, {r + 1}, {r});
    FoldSingleton(red, x, r);
    FoldSingleton(red, x, r + 1);
  }

  lemma PairHolds<T(!new)>(red: (T, T) -> T, inputs: seq<seq<T>>, size: nat, k: nat, blockStart: seq<nat>, g: nat)
    requires Associative(red) && Commutative(red)
    requires SameSize(inputs, size) && IsFloorLog(k, |inputs|) && |blockStart| == |inputs| && blockStart[0] == 0
    requires g < Pow2(k) && 0 <= Start(k, |inputs|, g)
    requires Start(k, |inputs|, g + 1) == Start(k, |inputs|, g) + 2 <= |inputs|
    ensures var r := Start(k, |inputs|, g);
            GroupHolds(ReduceInto(red, inputs[r], 0, inputs[r + 1]), red, inputs, size, k, blockStart, g, Pow2(k))
  {
    var n := |inputs|;
    var r: nat := Start(k, n, g);
    WholeSegment(k, n, blockStart, size, g);
    GroupRanks(k, n, g);
    forall e | 0 <= e < size
      ensures Fold(red, Column(inputs, size, e), Ranks(k, n, g, Pow2(k))) == Some(red(inputs[r + 1][e], inputs[r][e]))
    {
      FoldPair(red, Column(inputs, size, e), r, Ranks(k, n, g, Pow2(k)));
    }
  }

  /** After the last round a leader has its group's blocks reduced over everybody. */
  lemma LastRoundReduces<T>(row: seq<T>, red: (T, T) -> T, inputs: seq<seq<T>>, size: nat,
                            k: nat, blockStart: seq<nat>, g: nat)
    requires SameSize(inputs, size) && IsFloorLog(k, |inputs|) && |blockStart| == |inputs|
    requires g < Pow2(k) && GroupHolds(row, red, inputs, size, k, blockStart, g, 1)
    ensures 0 <= Start(k, |inputs|, g) <= |inputs| && 0 <= Start(k, |inputs|, g + 1) <= |inputs|
    ensures |row| == size && Off(blockStart, size, Start(k, |inputs|, g + 1)) <= size
    ensures forall e ::
              Off(blockStart, size, Start(k, |inputs|, g)) <= e < Off(blockStart, size, Start(k, |inputs|, g + 1)) ==>
              row[e] == Reduced(red, inputs, size)[e]
  {
    var n := |inputs|;
    StartFacts(k, n);
    LeaderFacts(k, n, g);
    assert AlignDown(g, 1) == g;
    forall e | Off(blockStart, size, Start(k, n, g)) <= e < Off(blockStart, size, Start(k, n, g + 1))
      ensures row[e] == Reduced(red, inputs, size)[e]
    {
      forall r: nat | r < n
        ensures r in Ranks(k, n, g, 1)
      {
        GroupFacts(k, n, r);
      }
      FoldOfEverybody(red, Column(inputs, size, e), Ranks(k, n, g, 1));
    }
  }
}
