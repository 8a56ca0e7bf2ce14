/** Buffers cut into consecutive blocks, one block for every rank. */
module Buffers {
  import opened DivMod
  import opened Sequences

  /** Copies data into s from position at on. */
  function Write<T>(s: seq<T>, at: nat, data: seq<T>): (t: seq<T>)
    requires at + |data| <= |s|
    ensures |t| == |s|
    ensures t[at..at + |data|] == data
    ensures t[..at] == s[..at] && t[at + |data|..] == s[at + |data|..]
  {
    s[..at] + data + s[at + |data|..]
  }

  ghost predicate StartsWith<T>(s: seq<T>, p: seq<T>)
  {
    |p| <= |s| && s[..|p|] == p
  }

  lemma WriteAtEnd<T>(s: seq<T>, p: seq<T>, data: seq<T>)
    requires StartsWith(s, p) && |p| + |data| <= |s|
    ensures StartsWith(Write(s, |p|, data), p + data)
  {
    var t := Write(s, |p|, data);
    assert t[..|p| + |data|] == p + data;
  }

  /** Blocks start, start + 1, ..., start + cnt - 1 (cyclically), one after the other. */
  ghost function Cat<T>(blocks: seq<seq<T>>, start: nat, cnt: nat): seq<T>
    requires blocks != []
  {
    if cnt == 0 then [] else Cat(blocks, start, cnt - 1) + blocks[(start + cnt - 1) % |blocks|]
  }

  lemma ModAdd(a: nat, b: nat, n: nat)
    requires n > 0
    ensures (a % n + b) % n == (a + b) % n
  {
    var q, r := (a % n + b) / n, (a % n + b) % n;
    assert a + b == (a / n) * n + (a % n + b);
    assert (a / n) * n + q * n == (a / n + q) * n;
    DivUnique(a + b, n, a / n + q, r);
  }

  lemma {:induction false} CatSplit<T>(blocks: seq<seq<T>>, start: nat, a: nat, b: nat)
    requires blocks != []
    ensures Cat(blocks, start, a + b) == Cat(blocks, start, a) + Cat(blocks, (start + a) % |blocks|, b)
  {
    if b > 0 {
      CatSplit(blocks, start, a, b - 1);
      ModAdd(start + a, b - 1, |blocks|);
    }
  }

  /** Starting anywhere, all blocks are a rotation of all blocks in rank order. */
  lemma CatRotation<T>(blocks: seq<seq<T>>, r: nat)
    requires r < |blocks|
    ensures Cat(blocks, r, |blocks|) == Cat(blocks, r, |blocks| - r) + Cat(blocks, 0, r)
    ensures Cat(blocks, 0, |blocks|) == Cat(blocks, 0, r) + Cat(blocks, r, |blocks| - r)
  {
    var n := |blocks|;
    CatSplit(blocks, r, n - r, r);
    DivUnique(n, n, 1, 0);
    CatSplit(blocks, 0, r, n - r);
    DivUnique(r, n, 0, r);
  }

  /** Block i ends where the next one starts. */
  ghost predicate EndsAtNext(blockStart: seq<nat>, blockLen: seq<nat>, i: nat)
    requires i + 1 < |blockStart| && i < |blockLen|
  {
    blockStart[i + 1] == blockStart[i] + blockLen[i]
  }

  /** The lengths and starts of the blocks, as the engine keeps them. */
  ghost predicate Layout(blockStart: seq<nat>, blockLen: seq<nat>, size: nat)
  {
    && |blockStart| == |blockLen| > 0
    && blockStart[0] == 0
    && (forall i: nat :: i < |blockStart| - 1 ==> EndsAtNext(blockStart, blockLen, i))
    && blockStart[|blockStart| - 1] + blockLen[|blockStart| - 1] == size
  }

  ghost predicate HasLengths<T>(blocks: seq<seq<T>>, blockLen: seq<nat>)
  {
    |blocks| == |blockLen| && forall b :: 0 <= b < |blocks| ==> |blocks[b]| == blockLen[b]
  }

  lemma {:induction false} CatFromZero<T>(blocks: seq<seq<T>>, blockStart: seq<nat>, blockLen: seq<nat>, size: nat,
                                          b: nat)
    requires Layout(blockStart, blockLen, size) && HasLengths(blocks, blockLen) && b <= |blocks|
    ensures |Cat(blocks, 0, b)| == if b == |blocks| then size else blockStart[b]
  {
    if b > 0 {
      CatFromZero(blocks, blockStart, blockLen, size, b - 1);
      assert b < |blocks| ==> EndsAtNext(blockStart, blockLen, b - 1);
      DivUnique(b - 1, |blocks|, 0, b - 1);
    }
  }

  /** However many blocks, from wherever: they fit in size. */
  lemma CatFits<T>(blocks: seq<seq<T>>, blockStart: seq<nat>, blockLen: seq<nat>, size: nat, r: nat, cnt: nat)
    requires Layout(blockStart, blockLen, size) && HasLengths(blocks, blockLen)
    requires r < |blocks| && cnt <= |blocks|
    ensures |Cat(blocks, r, cnt)| <= size
    ensures cnt == |blocks| ==> |Cat(blocks, r, cnt)| == size
  {
    CatRotation(blocks, r);
    CatFromZero(blocks, blockStart, blockLen, size, |blocks|);
    CatSplit(blocks, r, cnt, |blocks| - cnt);
  }

  // ---- reversal in place ----

  lemma ReverseTwice<T>(a: seq<T>)
    ensures Reverse(Reverse(a)) == a
  {
  }

  /** Reverses s[lo..hi] where it stands. */
  function ReverseRange<T>(s: seq<T>, lo: nat, hi: nat): (t: seq<T>)
    requires lo <= hi <= |s|
    ensures |t| == |s|
  {
    Write(s, lo, Reverse(s[lo..hi]))
  }

  lemma ReverseFront<T>(s: seq<T>, a: seq<T>, b: seq<T>)
    requires StartsWith(s, a + b)
    ensures StartsWith(ReverseRange(s, 0, |a|), Reverse(a) + b)
  {
    var t := ReverseRange(s, 0, |a|);
    assert s[..|a|] == (a + b)[..|a|] == a && s[0..|a|] == s[..|a|];
    assert t[..|a|] == Reverse(a);
    assert t[|a|..|a| + |b|] == t[|a|..][..|b|] == s[|a|..][..|b|] == (a + b)[|a|..];
    assert t[..|a| + |b|] == t[..|a|] + t[|a|..|a| + |b|];
  }

  lemma ReverseBack<T>(s: seq<T>, a: seq<T>, b: seq<T>)
    requires StartsWith(s, a + b)
    ensures StartsWith(ReverseRange(s, |a|, |a| + |b|), a + Reverse(b))
  {
    var t := ReverseRange(s, |a|, |a| + |b|);
    assert s[|a|..|a| + |b|] == (a + b)[|a|..] == b;
    assert t[..|a|] == s[..|a|] == (a + b)[..|a|];
    assert t[..|a| + |b|] == t[..|a|] + t[|a|..|a| + |b|];
  }

  /** Reversing all, then both parts, exchanges the parts. */
  lemma ThreeReversalsRotate<T>(s: seq<T>, a: seq<T>, b: seq<T>)
    requires StartsWith(s, a + b)
    ensures var all := |a| + |b|;
            StartsWith(ReverseRange(ReverseRange(ReverseRange(s, 0, all), 0, |b|), |b|, all), b + a)
  {
    assert a + b == (a + b) + [];
    ReverseFront(s, a + b, []);
    ReverseCat(a, b);
    var s1 := ReverseRange(s, 0, |a| + |b|);
    assert Reverse(a + b) + [] == Reverse(b) + Reverse(a);
    ReverseFront(s1, Reverse(b), Reverse(a));
    ReverseTwice(b);
    ReverseBack(ReverseRange(s1, 0, |b|), b, Reverse(a));
    ReverseTwice(a);
  }
}
