/** Elementwise reduction of the contributions of several ranks. */
module Reduction {
  import opened Options

  ghost predicate Associative<T(!new)>(red: (T, T) -> T)
  {
    forall a, b, c :: red(red(a, b), c) == red(a, red(b, c))
  }

  ghost predicate Commutative<T(!new)>(red: (T, T) -> T)
  {
    forall a, b :: red(a, b) == red(b, a)
  }

  /** red with None as its unit. */
  ghost function Combine<T>(red: (T, T) -> T, a: Option<T>, b: Option<T>): Option<T>
  {
    if a.None? then b
    else if b.None? then a
    else Some(red(a.value, b.value))
  }

  /** Left fold, in rank order, of the contributions of the ranks in s. A contribution is the
      source operand of the reducer, the accumulated value its destination. */
  ghost function Fold<T>(red: (T, T) -> T, x: seq<T>, s: set<nat>): Option<T>
  {
    if x == [] then None
    else
      var rest := Fold(red, x[..|x| - 1], s);
      if |x| - 1 in s then Combine(red, Some(x[|x| - 1]), rest) else rest
  }

  lemma CombineLaws<T(!new)>(red: (T, T) -> T, a: Option<T>, b: Option<T>, c: Option<T>)
    requires Associative(red) && Commutative(red)
    ensures Combine(red, Combine(red, a, b), c) == Combine(red, a, Combine(red, b, c))
    ensures Combine(red, a, b) == Combine(red, b, a)
  {
  }

  /** Reducing two disjoint sets of ranks apart and then together is reducing their union. */
  lemma {:induction false} FoldUnion<T(!new)>(red: (T, T) -> T, x: seq<T>, s: set<nat>, t: set<nat>)
    requires Associative(red) && Commutative(red)
    requires s !! t
    ensures Fold(red, x, s + t) == Combine(red, Fold(red, x, s), Fold(red, x, t))
  {
    if x != [] {
      var less, last := x[..|x| - 1], Some(x[|x| - 1]);
      FoldUnion(red, less, s, t);
      CombineLaws(red, last, Fold(red, less, s), Fold(red, less, t));
      CombineLaws(red, last, Fold(red, less, t), Fold(red, less, s));
      CombineLaws(red, Fold(red, less, s), last, Fold(red, less, t));
    }
  }

  lemma {:induction false} FoldSingleton<T>(red: (T, T) -> T, x: seq<T>, r: nat)
    requires r < |x|
    ensures Fold(red, x, {r}) == Some(x[r])
  {
    if |x| - 1 == r {
      FoldNobody(red, x[..r], {r});
    } else {
      FoldSingleton(red, x[..|x| - 1], r);
    }
  }

  lemma {:induction false} FoldNobody<T>(red: (T, T) -> T, x: seq<T>, s: set<nat>)
    requires forall r :: r in s ==> r >= |x|
    ensures Fold(red, x, s) == None
  {
    if x != [] {
      FoldNobody(red, x[..|x| - 1], s);
    }
  }

  /** Only the membership of actual ranks matters. */
  lemma {:induction false} FoldSameRanks<T>(red: (T, T) -> T, x: seq<T>, s: set<nat>, t: set<nat>)
    requires forall r: nat :: r < |x| ==> (r in s <==> r in t)
    ensures Fold(red, x, s) == Fold(red, x, t)
  {
    if x != [] {
      FoldSameRanks(red, x[..|x| - 1], s, t);
    }
  }

  /** The left fold over all ranks, in rank order. */
  function FoldAll<T>(red: (T, T) -> T, x: seq<T>): T
    requires x != []
  {
    if |x| == 1 then x[0] else red(x[|x| - 1], FoldAll(red, x[..|x| - 1]))
  }

  lemma {:induction false} FoldOfEverybody<T>(red: (T, T) -> T, x: seq<T>, s: set<nat>)
    requires x != [] && forall r: nat :: r < |x| ==> r in s
    ensures Fold(red, x, s) == Some(FoldAll(red, x))
  {
    if |x| == 1 {
      assert x[..0] == [];
    } else {
      FoldOfEverybody(red, x[..|x| - 1], s);
    }
  }

  // ---- vectors of contributions ----

  ghost predicate SameSize<T>(inputs: seq<seq<T>>, size: nat)
  {
    forall r :: 0 <= r < |inputs| ==> |inputs[r]| == size
  }

  /** What every rank contributes to element e. */
  function Column<T>(inputs: seq<seq<T>>, size: nat, e: nat): (c: seq<T>)
    requires SameSize(inputs, size) && e < size
    ensures |c| == |inputs| && forall r :: 0 <= r < |c| ==> c[r] == inputs[r][e]
  {
    seq(|inputs|, r requires 0 <= r < |inputs| => inputs[r][e])
  }

  /** The elementwise left fold of all inputs in rank order. */
  function Reduced<T>(red: (T, T) -> T, inputs: seq<seq<T>>, size: nat): (v: seq<T>)
    requires inputs != [] && SameSize(inputs, size)
    ensures |v| == size
    ensures forall e :: 0 <= e < size ==> v[e] == FoldAll(red, Column(inputs, size, e))
  {
    seq(size, e requires 0 <= e < size => FoldAll(red, Column(inputs, size, e)))
  }
}
