/** Who talks to whom: the Bruck map and the recursive-halving map of a rank. */
module Topology {
  import opened Sums
  import opened DivMod

  // ---- Bruck all-gather ----

  datatype BruckMap = BruckMap(k: nat, inRanks: seq<int>, outRanks: seq<int>)

  ghost predicate IsPower(d: int, j: nat)
  {
    d == Pow2(j)
  }

  ghost predicate IsBelow(j: nat, n: nat)
  {
    Pow2(j) < n
  }

  ghost predicate AllBelow(k: nat, n: nat)
  {
    forall j: nat :: j < k ==> IsBelow(j, n)
  }

  ghost predicate IsCeilLog(k: nat, n: nat)
  {
    Pow2(k) >= n && AllBelow(k, n)
  }

  function InRank(rank: nat, j: nat, n: nat): int
    requires n > 0
  {
    (rank + Pow2(j)) % n
  }

  function OutRank(rank: int, j: nat, n: nat): int
    requires n > 0
  {
    (rank - Pow2(j) + n) % n
  }

  ghost predicate IsBruckMap(m: BruckMap, rank: nat, n: nat)
    requires n > 0
  {
    && IsCeilLog(m.k, n)
    && |m.inRanks| == |m.outRanks| == m.k
    && (forall j: nat :: j < m.k ==> m.inRanks[j] == InRank(rank, j, n))
    && (forall j: nat :: j < m.k ==> m.outRanks[j] == OutRank(rank, j, n))
  }

  /** The distances 1, 2, 4, ... below n, one for each round. */
  method BruckDistances(n: nat) returns (distance: seq<nat>)
    ensures IsCeilLog(|distance|, n)
    ensures forall j: nat :: j < |distance| ==> IsPower(distance[j], j)
  {
    distance := [];
    var k := 0;
    while Pow2(k) < n
      invariant |distance| == k && AllBelow(k, n)
      invariant forall j: nat :: j < k ==> IsPower(distance[j], j)
      decreases n - k
    {
      AboveExponent(k);
      distance := distance + [Pow2(k)];
      k := k + 1;
    }
  }

  method ConstructBruckMap(rank: nat, n: nat) returns (m: BruckMap)
    requires rank < n
    ensures IsBruckMap(m, rank, n)
  {
    var distance := BruckDistances(n);
    var k := |distance|;
    var inRanks, outRanks := seq(k, _ => -1), seq(k, _ => -1);
    for j := 0 to k
      invariant |inRanks| == |outRanks| == k
      invariant forall i: nat :: i < j ==> inRanks[i] == InRank(rank, i, n)
      invariant forall i: nat :: i < j ==> outRanks[i] == OutRank(rank, i, n)
    {
      assert IsPower(distance[j], j);
      inRanks := inRanks[j := (rank + distance[j]) % n];
      outRanks := outRanks[j := (rank - distance[j] + n) % n];
    }
    m := BruckMap(k, inRanks, outRanks);
  }

  lemma {:induction false} AboveExponent(k: nat)
    ensures Pow2(k) > k
  {
    if k > 0 {
      AboveExponent(k - 1);
    }
  }

  lemma ThereAndBack(rank: nat, j: nat, n: nat)
    requires rank < n && Pow2(j) < n
    ensures 0 <= InRank(rank, j, n) < n && OutRank(InRank(rank, j, n), j, n) == rank
  {
    ModOnce(rank + Pow2(j), n);
    ModOnce(InRank(rank, j, n) - Pow2(j) + n, n);
  }

  /** In every round the rank s that I receive from is sending to me. */
  lemma BruckRanksMatch(mine: BruckMap, theirs: BruckMap, rank: nat, s: nat, n: nat, j: nat)
    requires rank < n && IsBruckMap(mine, rank, n) && j < mine.k
    requires s == InRank(rank, j, n) && IsBruckMap(theirs, s, n)
    ensures mine.inRanks[j] == s < n && j < theirs.k && theirs.outRanks[j] == rank
  {
    assert IsBelow(j, n);
    CeilLogUnique(mine.k, theirs.k, n);
    ThereAndBack(rank, j, n);
  }

  lemma CeilLogUnique(a: nat, b: nat, n: nat)
    requires IsCeilLog(a, n) && IsCeilLog(b, n)
    ensures a == b
  {
    assert a < b ==> IsBelow(a, n);
    assert b < a ==> IsBelow(b, n);
  }

  // ---- recursive halving ----

  datatype NodeType = Normal | GroupLeader | Other

  /** One round of recursive halving: whom to talk to, and which blocks go and come. */
  datatype HalvingStep = HalvingStep(target: int, sendBlockStart: int, sendBlockLen: int,
                                     recvBlockStart: int, recvBlockLen: int)

  datatype RecursiveHalvingMap = RecursiveHalvingMap(k: nat, nodeType: NodeType, neighbor: int, steps: seq<HalvingStep>)

  ghost predicate IsFloorLog(k: nat, n: nat)
  {
    Pow2(k) <= n < 2 * Pow2(k)
  }

  /** The 2^k groups: the first ones are single ranks, the others pairs of neighbours. */
  function Singles(k: nat, n: nat): int
  {
    2 * Pow2(k) - n
  }

  /** First rank, hence leader, of group g; also the first of the blocks the group owns. */
  function Start(k: nat, n: nat, g: nat): int
  {
    if g <= Singles(k, n) then g else 2 * g - Singles(k, n)
  }

  function GroupOf(k: nat, n: nat, rank: nat): int
  {
    if rank < Singles(k, n) then rank else Singles(k, n) + (rank - Singles(k, n)) / 2
  }

  function TypeOf(k: nat, n: nat, rank: nat): NodeType
  {
    if rank < Singles(k, n) then Normal
    else if (rank - Singles(k, n)) % 2 == 0 then GroupLeader
    else Other
  }

  /** Groups partition the ranks: each rank lies in exactly one group, whose first rank leads it. */
  lemma GroupFacts(k: nat, n: nat, rank: nat)
    requires IsFloorLog(k, n) && rank < n
    ensures 0 <= GroupOf(k, n, rank) < Pow2(k)
    ensures Start(k, n, GroupOf(k, n, rank)) <= rank < Start(k, n, GroupOf(k, n, rank) + 1)
    ensures TypeOf(k, n, rank) == Other <==> rank == Start(k, n, GroupOf(k, n, rank)) + 1
    ensures TypeOf(k, n, rank) == GroupLeader <==>
              rank == Start(k, n, GroupOf(k, n, rank)) && rank + 1 < Start(k, n, GroupOf(k, n, rank) + 1)
  {
  }

  lemma LeaderFacts(k: nat, n: nat, g: nat)
    requires IsFloorLog(k, n) && g < Pow2(k)
    ensures 0 <= Start(k, n, g) < Start(k, n, g + 1) <= n
    ensures Start(k, n, g + 1) <= Start(k, n, g) + 2
    ensures GroupOf(k, n, Start(k, n, g)) == g
    ensures TypeOf(k, n, Start(k, n, g)) != Other
    ensures Start(k, n, g + 1) == Start(k, n, g) + 2 ==> GroupOf(k, n, Start(k, n, g) + 1) == g
  {
  }

  lemma StartFacts(k: nat, n: nat)
    requires IsFloorLog(k, n)
    ensures Start(k, n, 0) == 0 && Start(k, n, Pow2(k)) == n
    ensures forall g: nat, h: nat :: g <= h ==> Start(k, n, g) <= Start(k, n, h)
  {
  }

  function Dist(k: nat, i: nat): (d: nat)
    requires i < k
    ensures d > 0
  {
    Pow2(k - 1 - i)
  }

  /** What a round must be for group g at distance d: I keep and receive the half of our common
      segment that I lie in, and send the half my partner lies in. */
  ghost predicate IsHalvingStep(s: HalvingStep, k: nat, n: nat, g: nat, d: nat)
    requires d > 0
  {
    var p := Partner(g, d);
    && s.target == Start(k, n, p)
    && s.recvBlockStart == Start(k, n, AlignDown(g, d))
    && s.recvBlockStart + s.recvBlockLen == Start(k, n, AlignDown(g, d) + d)
    && s.sendBlockStart == Start(k, n, AlignDown(p, d))
    && s.sendBlockStart + s.sendBlockLen == Start(k, n, AlignDown(p, d) + d)
  }

  ghost predicate AreHalvingSteps(steps: seq<HalvingStep>, k: nat, n: nat, g: nat)
    requires |steps| <= k
  {
    forall i: nat :: i < |steps| ==> IsHalvingStep(steps[i], k, n, g, Dist(k, i))
  }

  ghost predicate IsHalvingMap(m: RecursiveHalvingMap, rank: nat, n: nat)
  {
    && IsFloorLog(m.k, n)
    && m.nodeType == TypeOf(m.k, n, rank)
    && (m.nodeType == GroupLeader ==> m.neighbor == rank + 1)
    && (m.nodeType == Other ==> m.neighbor == rank - 1)
    && (m.nodeType != Other ==>
          && |m.steps| == m.k
          && GroupOf(m.k, n, rank) >= 0
          && AreHalvingSteps(m.steps, m.k, n, GroupOf(m.k, n, rank)))
  }

  lemma {:induction false} DistSplits(k: nat, i: nat)
    requires i < k
    ensures Pow2(k) == 2 * Dist(k, i) * Pow2(i)
    ensures i > 0 ==> Dist(k, i - 1) == 2 * Dist(k, i)
    ensures i == 0 ==> Pow2(k) == 2 * Dist(k, i)
  {
    Pow2Add(k - i, i);
  }

  /** An aligned segment that starts below a multiple of its size ends within it. */
  lemma AlignedFits(g: nat, d: nat, c: nat)
    requires d > 0 && g < d * c
    ensures AlignDown(g, d) + d <= d * c
  {
    var q := g / d;
    assert AlignDown(g, d) == q * d;
    if q >= c {
      MulMonotone(c, q, d);
    } else {
      MulMonotone(q + 1, c, d);
    }
  }

  /** Segments and partners stay among the 2^k groups. */
  lemma StepInRange(k: nat, i: nat, g: nat)
    requires i < k && g < Pow2(k)
    ensures var d := Dist(k, i);
            && AlignDown(g, 2 * d) + 2 * d <= Pow2(k)
            && Partner(g, d) < Pow2(k)
            && AlignDown(g, d) + d <= Pow2(k) && AlignDown(Partner(g, d), d) + d <= Pow2(k)
  {
    var d := Dist(k, i);
    DistSplits(k, i);
    AlignedFits(g, 2 * d, Pow2(i));
    PartnerFacts(g, d);
    HalfOfSegment(g, d);
    HalfOfSegment(Partner(g, d), d);
  }

  lemma HalfOfSegment(g: nat, d: nat)
    requires d > 0
    ensures AlignDown(g, d) == AlignDown(g, 2 * d) || AlignDown(g, d) == AlignDown(g, 2 * d) + d
  {
    PartnerFacts(g, d);
    if (g / d) % 2 == 0 {
      assert ((g / d) % 2) * d == 0;
    } else {
      assert ((g / d) % 2) * d == d;
    }
  }

  // ---- construction of the recursive-halving map ----

  method FloorLog(n: nat) returns (k: nat)
    requires n >= 1
    ensures IsFloorLog(k, n)
  {
    k := 0;
    while Pow2(k) <= n
      invariant k > 0 ==> Pow2(k - 1) <= n
      decreases n - k
    {
      AboveExponent(k);
      k := k + 1;
    }
    k := k - 1;
  }

  method Distances(k: nat) returns (distance: seq<nat>)
    ensures |distance| == k && forall i: nat :: i < k ==> distance[i] == Dist(k, i) >= 1
  {
    distance := [];
    for i := 0 to k
      invariant |distance| == i && forall j: nat :: j < i ==> distance[j] == Dist(k, j) >= 1
    {
      distance := distance + [Pow2(k - 1 - i)];
    }
  }

  /** Marks the last 2 * rest ranks as pairs of a leader and its follower. */
  method NodeTypes(k: nat, n: nat) returns (nodeType: seq<NodeType>)
    requires IsFloorLog(k, n)
    ensures |nodeType| == n && forall r: nat :: r < n ==> nodeType[r] == TypeOf(k, n, r)
    ensures forall r :: 0 <= r < 2 * Pow2(k) - n ==> nodeType[r] == Normal
    ensures forall r :: 2 * Pow2(k) - n <= r < n ==> nodeType[r] == if (n - r) % 2 == 0 then GroupLeader else Other
  {
    var rest := n - Pow2(k);
    nodeType := seq(n, _ => Normal);
    for i := 0 to rest
      invariant |nodeType| == n
      invariant forall r: nat :: r < n - 2 * i ==> nodeType[r] == Normal
      invariant forall r: nat :: n - 2 * i <= r < n ==> nodeType[r] == TypeOf(k, n, r)
    {
      var right := n - i * 2 - 1;
      var left := n - i * 2 - 2;
      nodeType := nodeType[left := GroupLeader][right := Other];
    }
  }

  datatype Groups = Groups(toNode: seq<int>, ofNode: seq<int>, blockStart: seq<int>, blockLen: seq<int>)

  ghost predicate IsGroupLen(len: int, k: nat, n: nat, g: nat)
  {
    len == Start(k, n, g + 1) - Start(k, n, g)
  }

  ghost predicate AreGroups(s: Groups, k: nat, n: nat)
  {
    && |s.toNode| == |s.blockStart| == |s.blockLen| == Pow2(k) && |s.ofNode| == n
    && (forall g: nat :: g < Pow2(k) ==> s.toNode[g] == s.blockStart[g] == Start(k, n, g))
    && (forall g: nat :: g < Pow2(k) ==> IsGroupLen(s.blockLen[g], k, n, g))
    && (forall r: nat :: r < n ==> s.ofNode[r] == GroupOf(k, n, r))
  }

  ghost predicate Counted(toNode: seq<int>, ofNode: seq<int>, blockLen: seq<int>, cnt: int, k: nat, n: nat, i: nat)
  {
    && |toNode| == |blockLen| == Pow2(k) && |ofNode| == n && i <= n
    && cnt == (if i == 0 then 0 else GroupOf(k, n, i - 1) + 1)
    && 0 <= cnt <= Pow2(k)
    && (forall g: nat :: g < cnt ==> toNode[g] == Start(k, n, g))
    && (forall r: nat :: r < i ==> ofNode[r] == GroupOf(k, n, r))
    && (forall g: nat :: g < cnt - 1 ==> IsGroupLen(blockLen[g], k, n, g))
    && (cnt > 0 ==> blockLen[cnt - 1] == i - Start(k, n, cnt - 1))
    && (forall g: nat :: cnt <= g < Pow2(k) ==> blockLen[g] == 0)
  }

  /** A leader opens the next group, a follower belongs to its leader's. */
  lemma NextRank(k: nat, n: nat, i: nat)
    requires IsFloorLog(k, n) && i < n
    ensures 0 <= GroupOf(k, n, i) < Pow2(k)
    ensures TypeOf(k, n, i) != Other ==> Start(k, n, GroupOf(k, n, i)) == i
    ensures TypeOf(k, n, i) == Other ==>
              i > 0 && GroupOf(k, n, i) == GroupOf(k, n, i - 1) && Start(k, n, GroupOf(k, n, i)) == i - 1
    ensures TypeOf(k, n, i) != Other && i > 0 ==>
              && 0 <= GroupOf(k, n, i - 1) == GroupOf(k, n, i) - 1
              && IsGroupLen(i - Start(k, n, GroupOf(k, n, i - 1)), k, n, GroupOf(k, n, i - 1))
    ensures i == 0 ==> GroupOf(k, n, i) == 0 && TypeOf(k, n, i) != Other
  {
    GroupFacts(k, n, i);
  }

  method CountRank(k: nat, n: nat, i: nat, nodeType: NodeType,
                   toNode: seq<int>, ofNode: seq<int>, blockLen: seq<int>, groupCnt: int)
    returns (toNode': seq<int>, ofNode': seq<int>, blockLen': seq<int>, groupCnt': int)
    requires IsFloorLog(k, n) && i < n && nodeType == TypeOf(k, n, i)
    requires Counted(toNode, ofNode, blockLen, groupCnt, k, n, i)
    ensures Counted(toNode', ofNode', blockLen', groupCnt', k, n, i + 1)
  {
    toNode', groupCnt' := toNode, groupCnt;
    NextRank(k, n, i);
    if nodeType == Normal || nodeType == GroupLeader {
      toNode' := toNode[groupCnt := i];
      groupCnt' := groupCnt + 1;
    }
    ofNode' := ofNode[i := groupCnt' - 1];
    blockLen' := blockLen[groupCnt' - 1 := blockLen[groupCnt' - 1] + 1];
  }

  /** Numbers the groups by their leaders and counts the blocks of each. */
  method CountGroups(k: nat, n: nat, nodeType: seq<NodeType>) returns (s: Groups)
    requires IsFloorLog(k, n)
    requires |nodeType| == n && forall r: nat :: r < n ==> nodeType[r] == TypeOf(k, n, r)
    ensures AreGroups(s, k, n)
  {
    var groupCnt := 0;
    var toNode, ofNode, blockLen := seq(Pow2(k), _ => 0), seq(n, _ => 0), seq(Pow2(k), _ => 0);
    for i := 0 to n
      invariant Counted(toNode, ofNode, blockLen, groupCnt, k, n, i)
    {
      toNode, ofNode, blockLen, groupCnt := CountRank(k, n, i, nodeType[i], toNode, ofNode, blockLen, groupCnt);
    }
    AllCounted(toNode, ofNode, blockLen, groupCnt, k, n);
    var blockStart := BlockStarts(k, n, blockLen);
    s := Groups(toNode, ofNode, blockStart, blockLen);
  }

  lemma LastGroup(k: nat, n: nat)
    requires IsFloorLog(k, n) && n > 0
    ensures GroupOf(k, n, n - 1) == Pow2(k) - 1 && Start(k, n, Pow2(k)) == n
  {
  }

  lemma AllCounted(toNode: seq<int>, ofNode: seq<int>, blockLen: seq<int>, cnt: int, k: nat, n: nat)
    requires IsFloorLog(k, n) && n > 0 && Counted(toNode, ofNode, blockLen, cnt, k, n, n)
    ensures forall g: nat :: g < Pow2(k) ==> toNode[g] == Start(k, n, g)
    ensures forall g: nat :: g < Pow2(k) ==> IsGroupLen(blockLen[g], k, n, g)
  {
    LastGroup(k, n);
  }

  method BlockStarts(k: nat, n: nat, blockLen: seq<int>) returns (blockStart: seq<int>)
    requires IsFloorLog(k, n) && |blockLen| == Pow2(k)
    requires forall g: nat :: g < Pow2(k) ==> IsGroupLen(blockLen[g], k, n, g)
    ensures |blockStart| == Pow2(k) && forall g: nat :: g < Pow2(k) ==> blockStart[g] == Start(k, n, g)
  {
    blockStart := seq(Pow2(k), _ => 0);
    for i := 1 to Pow2(k)
      invariant |blockStart| == Pow2(k)
      invariant forall g: nat :: g < i ==> blockStart[g] == Start(k, n, g)
    {
      blockStart := blockStart[i := blockStart[i - 1] + blockLen[i - 1]];
    }
  }

  /** Adds up the block counts of the d groups from lo on. */
  method CountBlocks(s: Groups, k: nat, n: nat, lo: nat, d: nat) returns (len: int)
    requires IsFloorLog(k, n) && AreGroups(s, k, n) && lo + d <= Pow2(k)
    ensures len == Start(k, n, lo + d) - Start(k, n, lo)
  {
    len := 0;
    for j := 0 to d
      invariant len == Start(k, n, lo + j) - Start(k, n, lo)
    {
      len := len + s.blockLen[lo + j];
    }
  }

  /** The partner at distance d: forward from an even segment, backward from an odd one. */
  method NextGroup(g: nat, d: nat) returns (p: int)
    requires d > 0
    ensures p == Partner(g, d)
  {
    var dir := if (g / d) % 2 == 0 then 1 else -1;
    p := g + dir * d;
  }

  /** The rounds of a rank when the number of machines is a power of two. */
  method StepsForPowerOfTwo(rank: nat, n: nat, k: nat, distance: seq<nat>) returns (steps: seq<HalvingStep>)
    requires rank < n == Pow2(k)
    requires |distance| == k && forall i: nat :: i < k ==> distance[i] == Dist(k, i)
    ensures |steps| == k && AreHalvingSteps(steps, k, n, rank)
  {
    steps := [];
    for i := 0 to k
      invariant |steps| == i && AreHalvingSteps(steps, k, n, rank)
    {
      var d := distance[i];
      var nextNodeIdx := NextGroup(rank, d);
      StepInRange(k, i, rank);
      steps := steps + [HalvingStep(nextNodeIdx, nextNodeIdx / d * d, d, rank / d * d, d)];
    }
  }

  method GroupStep(g: nat, n: nat, k: nat, i: nat, d: nat, s: Groups) returns (step: HalvingStep)
    requires g < Pow2(k) && IsFloorLog(k, n) && AreGroups(s, k, n)
    requires i < k && d == Dist(k, i)
    ensures IsHalvingStep(step, k, n, g, d)
  {
    StepInRange(k, i, g);
    var p := NextGroup(g, d);
    var recvLen := CountBlocks(s, k, n, g / d * d, d);
    var sendLen := CountBlocks(s, k, n, p / d * d, d);
    step := HalvingStep(s.toNode[p], s.blockStart[p / d * d], sendLen, s.blockStart[g / d * d], recvLen);
  }

  /** The rounds of a leader when the ranks are grouped. */
  method StepsForGroups(g: nat, n: nat, k: nat, distance: seq<nat>, s: Groups) returns (steps: seq<HalvingStep>)
    requires g < Pow2(k) && IsFloorLog(k, n) && AreGroups(s, k, n)
    requires |distance| == k && forall i: nat :: i < k ==> distance[i] == Dist(k, i)
    ensures |steps| == k && AreHalvingSteps(steps, k, n, g)
  {
    steps := [];
    for i := 0 to k
      invariant |steps| == i && AreHalvingSteps(steps, k, n, g)
    {
      var step := GroupStep(g, n, k, i, distance[i], s);
      steps := steps + [step];
    }
  }

  method ConstructHalvingMap(rank: nat, n: nat) returns (m: RecursiveHalvingMap)
    requires rank < n
    ensures IsHalvingMap(m, rank, n)
  {
    var k := FloorLog(n);
    var distance := Distances(k);
    if Pow2(k) == n {
      var steps := StepsForPowerOfTwo(rank, n, k, distance);
      return RecursiveHalvingMap(k, Normal, -1, steps);
    }
    var nodeType := NodeTypes(k, n);
    var s := CountGroups(k, n, nodeType);
    if nodeType[rank] == Other {
      return RecursiveHalvingMap(k, Other, rank - 1, []);
    }
    GroupFacts(k, n, rank);
    var steps := StepsForGroups(s.ofNode[rank], n, k, distance, s);
    m := RecursiveHalvingMap(k, nodeType[rank], if nodeType[rank] == GroupLeader then rank + 1 else -1, steps);
  }

  lemma MapsMatch(mine: RecursiveHalvingMap, theirs: RecursiveHalvingMap, rank: nat, n: nat, i: nat)
    requires rank < n && IsHalvingMap(mine, rank, n) && mine.nodeType != Other && i < mine.k
    requires 0 <= mine.steps[i].target && IsHalvingMap(theirs, mine.steps[i].target, n)
    ensures theirs.k == mine.k && theirs.nodeType != Other
    ensures var s, t := mine.steps[i], theirs.steps[i];
            && t.target == rank
            && s.sendBlockStart == t.recvBlockStart && s.sendBlockLen == t.recvBlockLen
            && s.recvBlockStart == t.sendBlockStart && s.recvBlockLen == t.sendBlockLen
  {
    var k, d := mine.k, Dist(mine.k, i);
    FloorLogUnique(mine.k, theirs.k, n);
    GroupFacts(k, n, rank);
    var g: nat := GroupOf(k, n, rank);
    StepInRange(k, i, g);
    PartnerFacts(g, d);
    LeaderFacts(k, n, Partner(g, d));
    LeaderFacts(k, n, g);
  }

  lemma OwnStepSplits(mine: RecursiveHalvingMap, rank: nat, n: nat, i: nat)
    requires rank < n && IsHalvingMap(mine, rank, n) && mine.nodeType != Other && i < mine.k
    ensures var s, k, d := mine.steps[i], mine.k, 2 * Dist(mine.k, i);
            var lo := AlignDown(GroupOf(k, n, rank), d);
            && s.sendBlockLen + s.recvBlockLen == Start(k, n, lo + d) - Start(k, n, lo)
            && (if s.sendBlockStart < s.recvBlockStart
                then s.sendBlockStart == Start(k, n, lo) && s.recvBlockStart == s.sendBlockStart + s.sendBlockLen
                else s.recvBlockStart == Start(k, n, lo) && s.sendBlockStart == s.recvBlockStart + s.recvBlockLen)
  {
    var k, d := mine.k, Dist(mine.k, i);
    GroupFacts(k, n, rank);
    var g: nat := GroupOf(k, n, rank);
    var p := Partner(g, d);
    StepInRange(k, i, g);
    PartnerFacts(g, d);
    HalvesOfSegment(g, d);
    StartGrows(k, n, AlignDown(g, d), AlignDown(g, d) + d);
    StartGrows(k, n, AlignDown(p, d), AlignDown(p, d) + d);
  }

  /** The maps of two partners agree, in every round: each targets the other, what one sends is
      what the other receives, and their two halves make up the segment of the round before. */
  lemma MapsAgree(mine: RecursiveHalvingMap, theirs: RecursiveHalvingMap, rank: nat, n: nat, i: nat)
    requires rank < n && IsHalvingMap(mine, rank, n) && mine.nodeType != Other && i < mine.k
    requires 0 <= mine.steps[i].target && IsHalvingMap(theirs, mine.steps[i].target, n)
    ensures theirs.k == mine.k && theirs.nodeType != Other
    ensures var s, t := mine.steps[i], theirs.steps[i];
            && t.target == rank
            && s.sendBlockStart == t.recvBlockStart && s.sendBlockLen == t.recvBlockLen
            && s.recvBlockStart == t.sendBlockStart && s.recvBlockLen == t.sendBlockLen
            && var g := GroupOf(mine.k, n, rank);
               var lo, hi := AlignDown(g, 2 * Dist(mine.k, i)), AlignDown(g, 2 * Dist(mine.k, i)) + 2 * Dist(mine.k, i);
               && s.sendBlockLen + s.recvBlockLen == Start(mine.k, n, hi) - Start(mine.k, n, lo)
               && (if s.sendBlockStart < s.recvBlockStart
                   then && s.sendBlockStart == Start(mine.k, n, lo)
                        && s.recvBlockStart == s.sendBlockStart + s.sendBlockLen
                   else && s.recvBlockStart == Start(mine.k, n, lo)
                        && s.sendBlockStart == s.recvBlockStart + s.recvBlockLen)
  {
    MapsMatch(mine, theirs, rank, n, i);
    OwnStepSplits(mine, rank, n, i);
  }

  lemma StartGrows(k: nat, n: nat, g: nat, h: nat)
    requires IsFloorLog(k, n) && g < h
    ensures Start(k, n, g) < Start(k, n, h)
  {
  }

  lemma HalvesOfSegment(g: nat, d: nat)
    requires d > 0
    ensures var lo, p := AlignDown(g, 2 * d), Partner(g, d);
            || (AlignDown(g, d) == lo && AlignDown(p, d) == lo + d)
            || (AlignDown(p, d) == lo && AlignDown(g, d) == lo + d)
  {
    PartnerFacts(g, d);
    if (g / d) % 2 == 0 {
      assert ((g / d) % 2) * d == 0 && (1 - (g / d) % 2) * d == d;
    } else {
      assert ((g / d) % 2) * d == d && (1 - (g / d) % 2) * d == 0;
    }
  }

  lemma FloorLogUnique(a: nat, b: nat, n: nat)
    requires IsFloorLog(a, n) && IsFloorLog(b, n)
    ensures a == b
  {
    if a < b {
      Pow2Monotone(a + 1, b);
    } else if b < a {
      Pow2Monotone(b + 1, a);
    }
  }
}
