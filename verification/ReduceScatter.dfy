/** Reduce-scatter by recursive halving, run by all ranks in matched exchanges. Row r of an array
    is a buffer of rank r. */
module ReduceScatter {
  import opened Sums
  import opened DivMod
  import opened Buffers
  import opened Topology
  import opened Reduction
  import opened HalvingInvariant

  ghost predicate AreHalvingMaps(maps: seq<RecursiveHalvingMap>, n: nat, k: nat)
  {
    && |maps| == n > 0
    && IsFloorLog(k, n)
    && forall r: nat :: r < n ==> IsHalvingMap(maps[r], r, n) && maps[r].k == k
  }

  ghost predicate RowsOf<T>(rows: seq<seq<T>>, n: nat, size: nat)
  {
    |rows| == n && forall r :: 0 <= r < n ==> |rows[r]| == size
  }

  /** The invariant for all group leaders, with segments of m groups. */
  ghost predicate AllGroupsHold<T>(rows: seq<seq<T>>, red: (T, T) -> T, inputs: seq<seq<T>>, size: nat,
                                   k: nat, blockStart: seq<nat>, m: nat)
    requires SameSize(inputs, size) && IsFloorLog(k, |inputs|) && |blockStart| == |inputs| && m > 0
  {
    && RowsOf(rows, |inputs|, size)
    && forall r: nat :: r < |inputs| && TypeOf(k, |inputs|, r) != Other ==>
         && GroupOf(k, |inputs|, r) >= 0
         && GroupHolds(rows[r], red, inputs, size, k, blockStart, GroupOf(k, |inputs|, r), m)
  }

  /** Only a single machine, which exchanges nothing, may have its input as the output. */
  predicate MayServe<T>(input: array<T>, output: array<T>)
  {
    input != output || input.Length == 1
  }

  // ---- pairs: the follower's data goes to the leader first ----

  ghost function AfterPairing<T>(red: (T, T) -> T, inputs: seq<seq<T>>, size: nat, k: nat, r: nat): (row: seq<T>)
    requires SameSize(inputs, size) && IsFloorLog(k, |inputs|) && r < |inputs|
    ensures |row| == size
  {
    if TypeOf(k, |inputs|, r) == GroupLeader && r + 1 < |inputs| then ReduceInto(red, inputs[r], 0, inputs[r + 1])
    else inputs[r]
  }

  /** The leader receives its follower's data and reduces it into its own. */
  method PairOne<T>(input: array<seq<T>>, output: array<seq<T>>, size: nat, r: nat, neighbor: nat, red: (T, T) -> T)
    requires input != output && r < input.Length == output.Length && neighbor < input.Length
    requires |input[r]| == |input[neighbor]| == |output[r]| == size
    modifies input, output
    ensures output[..] == old(output[..])[r := output[r]] && |output[r]| == size
    ensures input[..] == old(input[..])[r := ReduceInto(red, old(input[r]), 0, old(input[neighbor]))]
  {
    output[r] := Write(output[r], 0, input[neighbor]);
    assert output[r][..size] == input[neighbor];
    input[r] := ReduceInto(red, input[r], 0, output[r][..size]);
  }

  ghost predicate PairedBelow<T>(rows: seq<seq<T>>, red: (T, T) -> T, inputs: seq<seq<T>>, size: nat, k: nat, r: nat)
    requires SameSize(inputs, size) && IsFloorLog(k, |inputs|)
  {
    && |rows| == |inputs|
    && (forall q: nat :: q < r && q < |inputs| ==> rows[q] == AfterPairing(red, inputs, size, k, q))
    && (forall q: nat :: r <= q < |inputs| ==> rows[q] == inputs[q])
  }

  method PairUp<T>(input: array<seq<T>>, output: array<seq<T>>, size: nat, maps: seq<RecursiveHalvingMap>, k: nat,
                   red: (T, T) -> T, ghost inputs: seq<seq<T>>)
    requires AreHalvingMaps(maps, |inputs|, k) && SameSize(inputs, size)
    requires MayServe(input, output) && input[..] == inputs && RowsOf(output[..], |inputs|, size)
    modifies input, output
    ensures RowsOf(output[..], |inputs|, size)
    ensures PairedBelow(input[..], red, inputs, size, k, |inputs|)
  {
    var n := input.Length;
    if Pow2(k) != n {
      for r := 0 to n
        invariant RowsOf(output[..], n, size)
        invariant PairedBelow(input[..], red, inputs, size, k, r)
      {
        PairReady(maps, inputs, k, r);
        if maps[r].nodeType == GroupLeader {
          assert input[..][r] == inputs[r] && input[..][r + 1] == inputs[r + 1] && |output[..][r]| == size;
          PairOne(input, output, size, r, maps[r].neighbor, red);
        }
      }
    }
  }

  lemma PairReady<T>(maps: seq<RecursiveHalvingMap>, inputs: seq<seq<T>>, k: nat, r: nat)
    requires AreHalvingMaps(maps, |inputs|, k) && r < |inputs|
    ensures maps[r].nodeType == TypeOf(k, |inputs|, r)
    ensures maps[r].nodeType == GroupLeader ==> maps[r].neighbor == r + 1 < |inputs|
  {
    assert IsHalvingMap(maps[r], r, |inputs|);
    GroupFacts(k, |inputs|, r);
    StartFacts(k, |inputs|);
  }

  lemma PairingHoldsAt<T(!new)>(row: seq<T>, red: (T, T) -> T, inputs: seq<seq<T>>, size: nat,
                                k: nat, blockStart: seq<nat>, r: nat)
    requires Associative(red) && Commutative(red)
    requires SameSize(inputs, size) && r < |inputs| && IsFloorLog(k, |inputs|)
    requires |blockStart| == |inputs| && blockStart[0] == 0
    requires TypeOf(k, |inputs|, r) != Other && row == AfterPairing(red, inputs, size, k, r)
    ensures GroupOf(k, |inputs|, r) >= 0
    ensures GroupHolds(row, red, inputs, size, k, blockStart, GroupOf(k, |inputs|, r), Pow2(k))
  {
    var n := |inputs|;
    GroupFacts(k, n, r);
    var g: nat := GroupOf(k, n, r);
    LeaderFacts(k, n, g);
    if TypeOf(k, n, r) == GroupLeader {
      PairHolds(red, inputs, size, k, blockStart, g);
    } else {
      SingleHolds(red, inputs, size, k, blockStart, g);
    }
  }

  lemma PairingHolds<T(!new)>(rows: seq<seq<T>>, red: (T, T) -> T, inputs: seq<seq<T>>, size: nat,
                              k: nat, blockStart: seq<nat>)
    requires Associative(red) && Commutative(red)
    requires SameSize(inputs, size) && |inputs| > 0 && IsFloorLog(k, |inputs|)
    requires |blockStart| == |inputs| && blockStart[0] == 0
    requires PairedBelow(rows, red, inputs, size, k, |inputs|)
    ensures AllGroupsHold(rows, red, inputs, size, k, blockStart, Pow2(k))
  {
    forall r: nat | r < |inputs| && TypeOf(k, |inputs|, r) != Other
      ensures GroupOf(k, |inputs|, r) >= 0
      ensures GroupHolds(rows[r], red, inputs, size, k, blockStart, GroupOf(k, |inputs|, r), Pow2(k))
    {
      PairingHoldsAt(rows[r], red, inputs, size, k, blockStart, r);
    }
  }

  // ---- the rounds ----

  method SumBlocks(blockLen: seq<nat>, from: int, cnt: int, ghost blockStart: seq<nat>, ghost size: nat)
    returns (sum: nat)
    requires Layout(blockStart, blockLen, size)
    requires 0 <= from <= from + cnt <= |blockLen|
    ensures sum == Off(blockStart, size, from + cnt) - Off(blockStart, size, from)
  {
    sum := 0;
    for j := 0 to cnt
      invariant sum == Off(blockStart, size, from + j) - Off(blockStart, size, from)
    {
      OffNext(blockStart, blockLen, size, from + j);
      sum := sum + blockLen[from + j];
    }
  }

  /** The elements of a run of blocks. */
  method BlocksOf<T>(row: seq<T>, from: int, cnt: int, blockStart: seq<nat>, blockLen: seq<nat>, ghost size: nat)
    returns (data: seq<T>)
    requires Layout(blockStart, blockLen, size) && |row| == size
    requires 0 <= from < from + cnt <= |blockLen|
    ensures 0 <= Off(blockStart, size, from) <= Off(blockStart, size, from + cnt) <= size
    ensures data == row[Off(blockStart, size, from)..Off(blockStart, size, from + cnt)]
  {
    OffGrows(blockStart, blockLen, size, from, from + cnt);
    var len := SumBlocks(blockLen, from, cnt, blockStart, size);
    data := row[blockStart[from]..blockStart[from] + len];
  }

  lemma StepFacts(m: RecursiveHalvingMap, r: nat, n: nat, i: nat)
    requires IsHalvingMap(m, r, n) && m.nodeType != Other && r < n && i < m.k
    ensures 0 <= GroupOf(m.k, n, r) < Pow2(m.k) && Start(m.k, n, GroupOf(m.k, n, r)) == r
    ensures IsHalvingStep(m.steps[i], m.k, n, GroupOf(m.k, n, r), Dist(m.k, i))
    ensures 0 <= m.steps[i].sendBlockStart < m.steps[i].sendBlockStart + m.steps[i].sendBlockLen <= n
    ensures 0 <= m.steps[i].recvBlockStart < m.steps[i].recvBlockStart + m.steps[i].recvBlockLen <= n
  {
    GroupFacts(m.k, n, r);
    var g: nat := GroupOf(m.k, n, r);
    var d := Dist(m.k, i);
    StepInRange(m.k, i, g);
    StartFacts(m.k, n);
    StartGrows(m.k, n, AlignDown(g, d), AlignDown(g, d) + d);
    StartGrows(m.k, n, AlignDown(Partner(g, d), d), AlignDown(Partner(g, d), d) + d);
    assert IsHalvingStep(m.steps[i], m.k, n, g, Dist(m.k, i));
  }

  /** What rank r sends in round i. */
  ghost predicate IsOutgoing<T>(msg: seq<T>, row: seq<T>, m: RecursiveHalvingMap, n: nat, i: nat,
                                blockStart: seq<nat>, size: nat)
    requires i < |m.steps| && |blockStart| == n
  {
    var s := m.steps[i];
    && 0 <= s.sendBlockStart <= s.sendBlockStart + s.sendBlockLen <= n
    && Off(blockStart, size, s.sendBlockStart) <= Off(blockStart, size, s.sendBlockStart + s.sendBlockLen) <= |row|
    && msg == row[Off(blockStart, size, s.sendBlockStart)..Off(blockStart, size, s.sendBlockStart + s.sendBlockLen)]
  }

  /** What rank r sends, if it takes part. */
  ghost predicate MessageOk<T>(msg: seq<T>, row: seq<T>, m: RecursiveHalvingMap, n: nat, i: nat,
                               blockStart: seq<nat>, size: nat)
    requires |blockStart| == n
  {
    m.nodeType != Other ==> i < |m.steps| && IsOutgoing(msg, row, m, n, i, blockStart, size)
  }

  method MessageOf<T>(row: seq<T>, m: RecursiveHalvingMap, ghost n: nat, i: nat, ghost r: nat,
                      blockStart: seq<nat>, blockLen: seq<nat>, ghost size: nat) returns (msg: seq<T>)
    requires r < n && IsHalvingMap(m, r, n) && i < m.k && |row| == size
    requires Layout(blockStart, blockLen, size) && |blockStart| == n
    ensures MessageOk(msg, row, m, n, i, blockStart, size)
  {
    msg := [];
    if m.nodeType != Other {
      StepFacts(m, r, n, i);
      var s := m.steps[i];
      msg := BlocksOf(row, s.sendBlockStart, s.sendBlockLen, blockStart, blockLen, size);
    }
  }

  method Outgoing<T>(input: array<seq<T>>, maps: seq<RecursiveHalvingMap>, k: nat, i: nat,
                     blockStart: seq<nat>, blockLen: seq<nat>, ghost size: nat) returns (sent: seq<seq<T>>)
    requires AreHalvingMaps(maps, input.Length, k) && i < k
    requires Layout(blockStart, blockLen, size) && |blockStart| == input.Length && RowsOf(input[..], input.Length, size)
    ensures SentInRound(sent, input[..], maps, input.Length, i, blockStart, size)
  {
    sent := [];
    var n := input.Length;
    ghost var rows: seq<seq<T>> := input[..];
    for r := 0 to n
      invariant |sent| == r
      invariant forall q: nat :: q < r ==> MessageOk(sent[q], rows[q], maps[q], n, i, blockStart, size)
    {
      assert IsHalvingMap(maps[r], r, n) && |rows[r]| == size;
      var msg := MessageOf(input[r], maps[r], n, i, r, blockStart, blockLen, size);
      sent := sent + [msg];
    }
  }

  /** Takes the partner's message and reduces it into the blocks rank r keeps. */
  method Incoming<T>(input: array<seq<T>>, output: array<seq<T>>, r: nat, recvAt: nat, needRecvCnt: nat, msg: seq<T>,
                     red: (T, T) -> T)
    requires input != output && r < input.Length == output.Length && |msg| == needRecvCnt
    requires recvAt + needRecvCnt <= |input[r]| && needRecvCnt <= |output[r]|
    modifies input, output
    ensures output[..] == old(output[..])[r := output[r]] && |output[r]| == |old(output[r])|
    ensures input[..] == old(input[..])[r := ReduceInto(red, old(input[r]), recvAt, msg)]
  {
    output[r] := Write(output[r], 0, msg);
    assert output[r][..needRecvCnt] == msg;
    input[r] := ReduceInto(red, input[r], recvAt, output[r][..needRecvCnt]);
  }

  /** Ranks below r have finished the round, the others have not. */
  ghost predicate RoundBelow<T>(rows: seq<seq<T>>, before: seq<seq<T>>, red: (T, T) -> T, inputs: seq<seq<T>>,
                                size: nat, k: nat, blockStart: seq<nat>, d: nat, r: nat)
    requires SameSize(inputs, size) && IsFloorLog(k, |inputs|) && |blockStart| == |inputs| && d > 0
  {
    && RowsOf(rows, |inputs|, size) && |before| == |inputs|
    && (forall q: nat :: q < r && q < |inputs| && TypeOf(k, |inputs|, q) != Other ==>
          && GroupOf(k, |inputs|, q) >= 0
          && GroupHolds(rows[q], red, inputs, size, k, blockStart, GroupOf(k, |inputs|, q), d))
    && (forall q: nat :: r <= q < |inputs| ==> rows[q] == before[q])
  }

  /** Whom rank r, leader of group g, talks to in round i. */
  lemma PartnerFound(maps: seq<RecursiveHalvingMap>, n: nat, k: nat, r: nat, i: nat) returns (g: nat, t: nat)
    requires AreHalvingMaps(maps, n, k) && i < k && r < n && maps[r].nodeType != Other
    ensures g == GroupOf(k, n, r) && g < Pow2(k) && AlignDown(g, Dist(k, i)) + Dist(k, i) <= Pow2(k)
    ensures i < |maps[r].steps| && maps[r].steps[i].target == t < n
    ensures GroupOf(k, n, t) == Partner(g, Dist(k, i)) && maps[t].nodeType == TypeOf(k, n, t) != Other
    ensures IsHalvingStep(maps[r].steps[i], k, n, g, Dist(k, i))
  {
    assert IsHalvingMap(maps[r], r, n);
    StepFacts(maps[r], r, n, i);
    g := GroupOf(k, n, r);
    StepInRange(k, i, g);
    LeaderFacts(k, n, Partner(g, Dist(k, i)));
    t := Start(k, n, Partner(g, Dist(k, i)));
    assert IsHalvingMap(maps[t], t, n);
  }

  /** The blocks a leader keeps in a round are those of its segment. */
  lemma KeptSegment(s: HalvingStep, k: nat, n: nat, blockStart: seq<nat>, size: nat, g: nat, d: nat)
    requires IsFloorLog(k, n) && |blockStart| == n && d > 0 && AlignDown(g, d) + d <= Pow2(k)
    requires IsHalvingStep(s, k, n, g, d)
    ensures 0 <= s.recvBlockStart < s.recvBlockStart + s.recvBlockLen <= n
    ensures Off(blockStart, size, s.recvBlockStart) == SegLo(k, n, blockStart, size, g, d)
    ensures Off(blockStart, size, s.recvBlockStart + s.recvBlockLen) == SegHi(k, n, blockStart, size, g, d)
  {
    StartFacts(k, n);
    StartGrows(k, n, AlignDown(g, d), AlignDown(g, d) + d);
  }

  /** Whom rank r talks to in round i, and which elements lo..hi it keeps. */
  lemma RoundFacts(maps: seq<RecursiveHalvingMap>, n: nat, k: nat, blockStart: seq<nat>, size: nat, r: nat, i: nat)
    returns (g: nat, t: nat, lo: nat, hi: nat)
    requires AreHalvingMaps(maps, n, k) && |blockStart| == n && i < k && r < n && maps[r].nodeType != Other
    ensures g == GroupOf(k, n, r) && g < Pow2(k) && AlignDown(g, Dist(k, i)) + Dist(k, i) <= Pow2(k)
    ensures i < |maps[r].steps| && maps[r].steps[i].target == t < n
    ensures GroupOf(k, n, t) == Partner(g, Dist(k, i)) && maps[t].nodeType == TypeOf(k, n, t) != Other
    ensures lo == SegLo(k, n, blockStart, size, g, Dist(k, i)) && hi == SegHi(k, n, blockStart, size, g, Dist(k, i))
    ensures var s := maps[r].steps[i];
            && 0 <= s.recvBlockStart < s.recvBlockStart + s.recvBlockLen <= n
            && lo == Off(blockStart, size, s.recvBlockStart)
            && hi == Off(blockStart, size, s.recvBlockStart + s.recvBlockLen)
  {
    g, t := PartnerFound(maps, n, k, r, i);
    var d := Dist(k, i);
    KeptSegment(maps[r].steps[i], k, n, blockStart, size, g, d);
    lo, hi := SegLo(k, n, blockStart, size, g, d), SegHi(k, n, blockStart, size, g, d);
  }

  lemma PartnerSends<T>(msg: seq<T>, row: seq<T>, maps: seq<RecursiveHalvingMap>, n: nat, k: nat,
                        blockStart: seq<nat>, size: nat, g: nat, t: nat, i: nat, lo: nat, hi: nat)
    requires AreHalvingMaps(maps, n, k) && |blockStart| == n && i < k && t < n && maps[t].nodeType != Other
    requires g < Pow2(k) && GroupOf(k, n, t) == Partner(g, Dist(k, i))
    requires AlignDown(g, Dist(k, i)) + Dist(k, i) <= Pow2(k)
    requires lo == SegLo(k, n, blockStart, size, g, Dist(k, i)) && hi == SegHi(k, n, blockStart, size, g, Dist(k, i))
    requires i < |maps[t].steps| && IsOutgoing(msg, row, maps[t], n, i, blockStart, size)
    ensures lo <= hi <= |row| && msg == row[lo..hi]
  {
    assert IsHalvingMap(maps[t], t, n);
    StepFacts(maps[t], t, n, i);
    PartnerFacts(g, Dist(k, i));
  }

  ghost predicate SentInRound<T>(sent: seq<seq<T>>, before: seq<seq<T>>, maps: seq<RecursiveHalvingMap>, n: nat, i: nat,
                                 blockStart: seq<nat>, size: nat)
    requires |maps| == |blockStart| == n
  {
    && |sent| == |before| == n
    && forall q: nat :: q < n ==> MessageOk(sent[q], before[q], maps[q], n, i, blockStart, size)
  }

  /** The message rank r waits for is the one its partner sent, and reducing it keeps the invariant. */
  lemma MessageFits<T(!new)>(before: seq<seq<T>>, sent: seq<seq<T>>, maps: seq<RecursiveHalvingMap>, r: nat, i: nat,
                             red: (T, T) -> T, inputs: seq<seq<T>>, size: nat, k: nat,
                             blockStart: seq<nat>, blockLen: seq<nat>)
    returns (t: nat, lo: nat, hi: nat)
    requires Associative(red) && Commutative(red) && SameSize(inputs, size) && AreHalvingMaps(maps, |inputs|, k)
    requires Layout(blockStart, blockLen, size) && |blockStart| == |inputs| && i < k && r < |inputs|
    requires AllGroupsHold(before, red, inputs, size, k, blockStart, 2 * Dist(k, i))
    requires SentInRound(sent, before, maps, |inputs|, i, blockStart, size) && maps[r].nodeType != Other
    ensures i < |maps[r].steps| && maps[r].steps[i].target == t < |inputs|
    ensures var s := maps[r].steps[i];
            && 0 <= s.recvBlockStart < s.recvBlockStart + s.recvBlockLen <= |inputs|
            && lo == Off(blockStart, size, s.recvBlockStart)
            && hi == Off(blockStart, size, s.recvBlockStart + s.recvBlockLen)
    ensures lo <= hi <= size && |sent[t]| == hi - lo && |before[r]| == size
    ensures GroupOf(k, |inputs|, r) >= 0
    ensures GroupHolds(ReduceInto(red, before[r], lo, sent[t]), red, inputs, size, k, blockStart,
                       GroupOf(k, |inputs|, r), Dist(k, i))
  {
    var g: nat;
    g, t, lo, hi := RoundFacts(maps, |inputs|, k, blockStart, size, r, i);
    PartnerSends(sent[t], before[t], maps, |inputs|, k, blockStart, size, g, t, i, lo, hi);
    assert IsHalvingMap(maps[r], r, |inputs|);
    ExchangeKeeps(before[r], before[t], red, inputs, size, k, blockStart, blockLen, i, g, lo, hi);
  }

  lemma RoundOneMore<T>(rows: seq<seq<T>>, row: seq<T>, before: seq<seq<T>>, red: (T, T) -> T, inputs: seq<seq<T>>,
                        size: nat, k: nat, blockStart: seq<nat>, d: nat, r: nat)
    requires SameSize(inputs, size) && IsFloorLog(k, |inputs|) && |blockStart| == |inputs| && d > 0 && r < |inputs|
    requires RoundBelow(rows, before, red, inputs, size, k, blockStart, d, r) && |row| == size
    requires TypeOf(k, |inputs|, r) != Other ==>
               && GroupOf(k, |inputs|, r) >= 0
               && GroupHolds(row, red, inputs, size, k, blockStart, GroupOf(k, |inputs|, r), d)
    ensures RoundBelow(rows[r := row], before, red, inputs, size, k, blockStart, d, r + 1)
  {
  }

  /** A leader takes its partner's message for the elements from lo on. */
  method ReceiveMessage<T>(input: array<seq<T>>, output: array<seq<T>>, r: nat, s: HalvingStep, sent: seq<seq<T>>,
                           blockStart: seq<nat>, blockLen: seq<nat>, red: (T, T) -> T,
                           ghost size: nat, ghost lo: nat, ghost hi: nat)
    requires Layout(blockStart, blockLen, size) && input != output && r < input.Length == output.Length
    requires |input[r]| == |output[r]| == size && 0 <= s.target < |sent|
    requires 0 <= s.recvBlockStart < s.recvBlockStart + s.recvBlockLen <= |blockStart|
    requires lo == Off(blockStart, size, s.recvBlockStart)
    requires hi == Off(blockStart, size, s.recvBlockStart + s.recvBlockLen)
    requires lo <= hi <= size && |sent[s.target]| == hi - lo
    modifies input, output
    ensures output[..] == old(output[..])[r := output[r]] && |output[r]| == size
    ensures input[..] == old(input[..])[r := ReduceInto(red, old(input[r]), lo, sent[s.target])]
  {
    var needRecvCnt := SumBlocks(blockLen, s.recvBlockStart, s.recvBlockLen, blockStart, size);
    Incoming(input, output, r, blockStart[s.recvBlockStart], needRecvCnt, sent[s.target], red);
  }

  /** Rank r's part of a round. */
  method ReceiveOne<T(!new)>(input: array<seq<T>>, output: array<seq<T>>, maps: seq<RecursiveHalvingMap>,
                             k: nat, i: nat, r: nat, sent: seq<seq<T>>,
                             blockStart: seq<nat>, blockLen: seq<nat>, red: (T, T) -> T,
                             ghost before: seq<seq<T>>, ghost inputs: seq<seq<T>>, ghost size: nat)
    requires Associative(red) && Commutative(red) && SameSize(inputs, size) && AreHalvingMaps(maps, |inputs|, k)
    requires Layout(blockStart, blockLen, size) && |blockStart| == |inputs| && i < k && r < |inputs|
    requires input != output && RowsOf(output[..], |inputs|, size)
    requires AllGroupsHold(before, red, inputs, size, k, blockStart, 2 * Dist(k, i))
    requires SentInRound(sent, before, maps, |inputs|, i, blockStart, size)
    requires RoundBelow(input[..], before, red, inputs, size, k, blockStart, Dist(k, i), r)
    modifies input, output
    ensures RowsOf(output[..], |inputs|, size)
    ensures RoundBelow(input[..], before, red, inputs, size, k, blockStart, Dist(k, i), r + 1)
  {
    ghost var rows: seq<seq<T>> := input[..];
    ghost var outs: seq<seq<T>> := output[..];
    assert rows[r] == before[r] && |outs[r]| == |rows[r]| == size;
    ghost var row := ReceivedRow(before, sent, maps, r, i, red, inputs, size, k, blockStart, blockLen);
    RoundOneMore(rows, row, before, red, inputs, size, k, blockStart, Dist(k, i), r);
    if maps[r].nodeType != Other {
      ghost var t, lo, hi := MessageFits(before, sent, maps, r, i, red, inputs, size, k, blockStart, blockLen);
      ReceiveMessage(input, output, r, maps[r].steps[i], sent, blockStart, blockLen, red, size, lo, hi);
    } else {
      assert rows[r := before[r]] == rows;
    }
  }

  /** What rank r's row becomes in a round. */
  lemma ReceivedRow<T(!new)>(before: seq<seq<T>>, sent: seq<seq<T>>, maps: seq<RecursiveHalvingMap>, r: nat, i: nat,
                             red: (T, T) -> T, inputs: seq<seq<T>>, size: nat, k: nat,
                             blockStart: seq<nat>, blockLen: seq<nat>)
    returns (row: seq<T>)
    requires Associative(red) && Commutative(red) && SameSize(inputs, size) && AreHalvingMaps(maps, |inputs|, k)
    requires Layout(blockStart, blockLen, size) && |blockStart| == |inputs| && i < k && r < |inputs|
    requires AllGroupsHold(before, red, inputs, size, k, blockStart, 2 * Dist(k, i))
    requires SentInRound(sent, before, maps, |inputs|, i, blockStart, size)
    ensures maps[r].nodeType == TypeOf(k, |inputs|, r) && |row| == size
    ensures maps[r].nodeType == Other ==> row == before[r]
    ensures maps[r].nodeType != Other ==>
              && i < |maps[r].steps| && 0 <= maps[r].steps[i].target < |sent|
              && var s := maps[r].steps[i];
                 && 0 <= s.recvBlockStart <= |blockStart|
                 && Off(blockStart, size, s.recvBlockStart) + |sent[s.target]| <= |before[r]|
                 && row == ReduceInto(red, before[r], Off(blockStart, size, s.recvBlockStart), sent[s.target])
                 && GroupOf(k, |inputs|, r) >= 0
                 && GroupHolds(row, red, inputs, size, k, blockStart, GroupOf(k, |inputs|, r), Dist(k, i))
  {
    assert IsHalvingMap(maps[r], r, |inputs|);
    row := before[r];
    if maps[r].nodeType != Other {
      var t, lo, hi := MessageFits(before, sent, maps, r, i, red, inputs, size, k, blockStart, blockLen);
      row := ReduceInto(red, before[r], lo, sent[t]);
    }
  }

  /** One round: every leader exchanges with its partner and reduces what comes in. */
  method HalvingRound<T(!new)>(input: array<seq<T>>, output: array<seq<T>>, maps: seq<RecursiveHalvingMap>, k: nat,
                               i: nat, blockStart: seq<nat>, blockLen: seq<nat>, red: (T, T) -> T,
                               ghost inputs: seq<seq<T>>, ghost size: nat)
    requires Associative(red) && Commutative(red) && SameSize(inputs, size) && AreHalvingMaps(maps, |inputs|, k)
    requires Layout(blockStart, blockLen, size) && |blockStart| == |inputs| && i < k
    requires input != output && RowsOf(output[..], |inputs|, size)
    requires AllGroupsHold(input[..], red, inputs, size, k, blockStart, 2 * Dist(k, i))
    modifies input, output
    ensures RowsOf(output[..], |inputs|, size)
    ensures AllGroupsHold(input[..], red, inputs, size, k, blockStart, Dist(k, i))
  {
    ghost var before: seq<seq<T>> := input[..];
    var sent := Outgoing(input, maps, k, i, blockStart, blockLen, size);
    for r := 0 to input.Length
      invariant RowsOf(output[..], |inputs|, size)
      invariant RoundBelow(input[..], before, red, inputs, size, k, blockStart, Dist(k, i), r)
    {
      ReceiveOne(input, output, maps, k, i, r, sent, blockStart, blockLen, red, before, inputs, size);
    }
  }

  // ---- the blocks go to their ranks ----

  ghost function BlockOf<T>(v: seq<T>, blockStart: seq<nat>, blockLen: seq<nat>, r: nat): (b: seq<T>)
    requires Layout(blockStart, blockLen, |v|) && r < |blockStart|
    ensures |b| == blockLen[r]
  {
    OffNext(blockStart, blockLen, |v|, r);
    v[blockStart[r]..blockStart[r] + blockLen[r]]
  }

  /** v cut into the blocks of the ranks. */
  ghost function Cut<T>(v: seq<T>, blockStart: seq<nat>, blockLen: seq<nat>): (b: seq<seq<T>>)
    requires Layout(blockStart, blockLen, |v|)
    ensures HasLengths(b, blockLen)
    ensures |b| == |blockStart| && forall r :: 0 <= r < |b| ==> b[r] == BlockOf(v, blockStart, blockLen, r)
  {
    seq(|blockStart|, r requires 0 <= r < |blockStart| => BlockOf(v, blockStart, blockLen, r))
  }

  lemma {:induction false} CutJoins<T>(v: seq<T>, blockStart: seq<nat>, blockLen: seq<nat>, cnt: nat)
    requires Layout(blockStart, blockLen, |v|) && cnt <= |blockStart|
    ensures Off(blockStart, |v|, cnt) <= |v|
    ensures Cat(Cut(v, blockStart, blockLen), 0, cnt) == v[..Off(blockStart, |v|, cnt)]
  {
    OffWithin(blockStart, blockLen, |v|, cnt);
    if cnt > 0 {
      CutJoins(v, blockStart, blockLen, cnt - 1);
      DivUnique(cnt - 1, |blockStart|, 0, cnt - 1);
      OffNext(blockStart, blockLen, |v|, cnt - 1);
      SliceJoin(v, blockStart[cnt - 1], Off(blockStart, |v|, cnt));
    }
  }

  lemma SliceJoin<T>(v: seq<T>, a: nat, b: nat)
    requires a <= b <= |v|
    ensures v[..a] + v[a..b] == v[..b]
  {
  }

  /** A rank's block lies within the blocks of its group. */
  lemma BlockInGroup(k: nat, n: nat, blockStart: seq<nat>, blockLen: seq<nat>, size: nat, r: nat)
    returns (g: nat, l: nat)
    requires IsFloorLog(k, n) && r < n == |blockStart| && Layout(blockStart, blockLen, size)
    ensures g < Pow2(k) && g == GroupOf(k, n, r) && l == Start(k, n, g) && 0 <= Start(k, n, g + 1) <= n
    ensures l == (if TypeOf(k, n, r) == Other then r - 1 else r) && TypeOf(k, n, l) != Other && GroupOf(k, n, l) == g
    ensures Off(blockStart, size, l) <= blockStart[r]
    ensures blockStart[r] + blockLen[r] <= Off(blockStart, size, Start(k, n, g + 1)) <= size
  {
    GroupFacts(k, n, r);
    g := GroupOf(k, n, r);
    LeaderFacts(k, n, g);
    l := Start(k, n, g);
    OffGrows(blockStart, blockLen, size, l, r);
    OffGrows(blockStart, blockLen, size, r + 1, Start(k, n, g + 1));
    OffNext(blockStart, blockLen, size, r);
  }

  lemma SlicesAgree<T>(row: seq<T>, v: seq<T>, lo: nat, hi: nat, a: nat, b: nat)
    requires lo <= a <= b <= hi <= |row| == |v|
    requires forall e :: lo <= e < hi ==> row[e] == v[e]
    ensures row[a..b] == v[a..b]
  {
  }

  /** The leader of rank r's group, which is r itself or its left neighbour, has block r reduced. */
  lemma LeaderHasBlock<T>(rows: seq<seq<T>>, red: (T, T) -> T, inputs: seq<seq<T>>, size: nat,
                          k: nat, blockStart: seq<nat>, blockLen: seq<nat>, r: nat) returns (l: nat)
    requires SameSize(inputs, size) && IsFloorLog(k, |inputs|) && r < |inputs|
    requires Layout(blockStart, blockLen, size) && |blockStart| == |inputs|
    requires AllGroupsHold(rows, red, inputs, size, k, blockStart, 1)
    ensures l == (if TypeOf(k, |inputs|, r) == Other then r - 1 else r) && l < |inputs| == |rows|
    ensures |rows[l]| == size && blockStart[r] + blockLen[r] <= size
    ensures rows[l][blockStart[r]..blockStart[r] + blockLen[r]]
         == BlockOf(Reduced(red, inputs, size), blockStart, blockLen, r)
  {
    var g: nat;
    g, l := BlockInGroup(k, |inputs|, blockStart, blockLen, size, r);
    LastRoundReduces(rows[l], red, inputs, size, k, blockStart, g);
    SlicesAgree(rows[l], Reduced(red, inputs, size), Off(blockStart, size, l),
                Off(blockStart, size, Start(k, |inputs|, g + 1)), blockStart[r], blockStart[r] + blockLen[r]);
  }

  /** The followers' blocks come from their leaders; everyone has its own block at the front. */
  method Distribute<T>(input: array<seq<T>>, output: array<seq<T>>, maps: seq<RecursiveHalvingMap>, k: nat,
                       blockStart: seq<nat>, blockLen: seq<nat>, ghost red: (T, T) -> T,
                       ghost inputs: seq<seq<T>>, ghost size: nat)
    requires SameSize(inputs, size) && AreHalvingMaps(maps, |inputs|, k)
    requires Layout(blockStart, blockLen, size) && |blockStart| == |inputs|
    requires MayServe(input, output) && RowsOf(output[..], |inputs|, size)
    requires AllGroupsHold(input[..], red, inputs, size, k, blockStart, 1)
    modifies output
    ensures RowsOf(output[..], |inputs|, size)
    ensures FrontBlocks(output[..], Cut(Reduced(red, inputs, size), blockStart, blockLen), |inputs|)
  {
    var n := input.Length;
    ghost var rows: seq<seq<T>> := input[..];
    ghost var blocks := Cut(Reduced(red, inputs, size), blockStart, blockLen);
    for r := 0 to n
      invariant RowsOf(output[..], n, size) && (input != output || r == 0 ==> input[..] == rows)
      invariant FrontBlocks(output[..], blocks, r)
    {
      assert IsHalvingMap(maps[r], r, n);
      ghost var l := LeaderHasBlock(rows, red, inputs, size, k, blockStart, blockLen, r);
      var from := if maps[r].nodeType == Other then maps[r].neighbor else r;
      assert input[from] == rows[l] && |output[..][r]| == size;
      PutFirst(output, r, input[from][blockStart[r]..blockStart[r] + blockLen[r]], size);
    }
  }

  ghost predicate FrontBlocks<T>(rows: seq<seq<T>>, blocks: seq<seq<T>>, r: nat)
  {
    r <= |rows| == |blocks| && forall q :: 0 <= q < r ==> StartsWith(rows[q], blocks[q])
  }

  method PutFirst<T>(output: array<seq<T>>, r: nat, data: seq<T>, ghost size: nat)
    requires r < output.Length && |output[r]| == size >= |data|
    modifies output
    ensures output[..] == old(output[..])[r := output[r]]
    ensures |output[r]| == size && StartsWith(output[r], data)
  {
    output[r] := Write(output[r], 0, data);
  }

  /** All rounds, from segments of all groups down to single groups. */
  method HalvingRounds<T(!new)>(input: array<seq<T>>, output: array<seq<T>>, maps: seq<RecursiveHalvingMap>, k: nat,
                                blockStart: seq<nat>, blockLen: seq<nat>, red: (T, T) -> T,
                                ghost inputs: seq<seq<T>>, ghost size: nat)
    requires Associative(red) && Commutative(red) && SameSize(inputs, size) && AreHalvingMaps(maps, |inputs|, k)
    requires Layout(blockStart, blockLen, size) && |blockStart| == |inputs|
    requires MayServe(input, output) && RowsOf(output[..], |inputs|, size)
    requires AllGroupsHold(input[..], red, inputs, size, k, blockStart, Pow2(k))
    modifies input, output
    ensures RowsOf(output[..], |inputs|, size)
    ensures AllGroupsHold(input[..], red, inputs, size, k, blockStart, 1)
  {
    for i := 0 to k
      invariant RowsOf(output[..], |inputs|, size)
      invariant AllGroupsHold(input[..], red, inputs, size, k, blockStart, Pow2(k - i))
    {
      assert Pow2(k - i) == 2 * Dist(k, i) && Dist(k, i) == Pow2(k - (i + 1));
      HalvingRound(input, output, maps, k, i, blockStart, blockLen, red, inputs, size);
    }
  }

  /** Reduce-scatter: every rank ends with its own block, reduced over all ranks. */
  method ReduceAndScatter<T(!new)>(input: array<seq<T>>, size: nat, blockStart: seq<nat>, blockLen: seq<nat>,
                                   output: array<seq<T>>, maps: seq<RecursiveHalvingMap>, k: nat, red: (T, T) -> T,
                                   ghost inputs: seq<seq<T>>)
    requires Associative(red) && Commutative(red)
    requires MayServe(input, output) && input[..] == inputs
    requires SameSize(inputs, size) && RowsOf(output[..], |inputs|, size)
    requires Layout(blockStart, blockLen, size) && |blockStart| == |inputs|
    requires AreHalvingMaps(maps, |inputs|, k)
    modifies input, output
    ensures RowsOf(output[..], |inputs|, size) && RowsOf(input[..], |inputs|, size)
    ensures FrontBlocks(output[..], Cut(Reduced(red, inputs, size), blockStart, blockLen), |inputs|)
  {
    PairUp(input, output, size, maps, k, red, inputs);
    PairingHolds(input[..], red, inputs, size, k, blockStart);
    HalvingRounds(input, output, maps, k, blockStart, blockLen, red, inputs, size);
    Distribute(input, output, maps, k, blockStart, blockLen, red, inputs, size);
  }
}
