/** Binary codes and the Kraft inequality for prefix-free families of codes. */
module PrefixCodes {
  import opened Sums

  type Bit = x: int | 0 <= x <= 1
  type Code = seq<Bit>

  /** No code is a prefix of another one (so a stream of codes can be decoded greedily). */
  ghost predicate PrefixFree(codes: seq<Code>)
  {
    forall i, j :: 0 <= i < |codes| && 0 <= j < |codes| && i != j ==> !(codes[i] <= codes[j])
  }

  ghost predicate LengthsWithin(codes: seq<Code>, D: nat)
  {
    forall i :: 0 <= i < |codes| ==> |codes[i]| <= D
  }

  /** The Kraft sum of the codes, scaled by 2^D so that it is a whole number. */
  ghost function KraftUnits(codes: seq<Code>, D: nat): nat
    requires LengthsWithin(codes, D)
  {
    if codes == [] then 0 else Pow2(D - |codes[0]|) + KraftUnits(codes[1..], D)
  }

  ghost predicate NoneEmpty(codes: seq<Code>)
  {
    forall i :: 0 <= i < |codes| ==> codes[i] != []
  }

  /** What is left of the codes that start with bit b. */
  ghost function Tails(codes: seq<Code>, b: Bit): seq<Code>
    requires NoneEmpty(codes)
  {
    if codes == [] then []
    else if codes[0][0] == b then [codes[0][1..]] + Tails(codes[1..], b)
    else Tails(codes[1..], b)
  }

  lemma {:induction false} TailComesFromCode(codes: seq<Code>, b: Bit, k: nat) returns (i: nat)
    requires NoneEmpty(codes)
    requires k < |Tails(codes, b)|
    ensures i < |codes| && codes[i] == [b] + Tails(codes, b)[k]
  {
    if codes[0][0] == b && k == 0 {
      i := 0;
    } else {
      i := TailComesFromCode(codes[1..], b, if codes[0][0] == b then k - 1 else k);
      i := i + 1;
    }
  }

  lemma PrefixBehindBit(b: Bit, x: Code, y: Code)
    ensures [b] + x <= [b] + y <==> x <= y
  {
    if x <= y {
      assert y == x + y[|x|..];
      assert [b] + y == ([b] + x) + y[|x|..];
    }
    if [b] + x <= [b] + y {
      assert ([b] + y)[..|x| + 1] == [b] + x;
      assert y[..|x|] == ([b] + y)[1..|x| + 1];
    }
  }

  lemma PrefixFreeCons(x: Code, ts: seq<Code>)
    requires PrefixFree(ts)
    requires forall k :: 0 <= k < |ts| ==> !(x <= ts[k]) && !(ts[k] <= x)
    ensures PrefixFree([x] + ts)
  {
    var all := [x] + ts;
    forall i, j | 0 <= i < |all| && 0 <= j < |all| && i != j
      ensures !(all[i] <= all[j])
    {
      if i > 0 && j > 0 {
        assert !(ts[i - 1] <= ts[j - 1]);
      }
    }
  }

  lemma {:induction false} TailsPrefixFree(codes: seq<Code>, b: Bit)
    requires NoneEmpty(codes)
    requires PrefixFree(codes)
    ensures PrefixFree(Tails(codes, b))
  {
    if codes != [] {
      assert PrefixFree(codes[1..]) by {
        forall i, j | 0 <= i < |codes[1..]| && 0 <= j < |codes[1..]| && i != j
          ensures !(codes[1..][i] <= codes[1..][j])
        {
          assert !(codes[i + 1] <= codes[j + 1]);
        }
      }
      TailsPrefixFree(codes[1..], b);
      if codes[0][0] == b {
        forall k | 0 <= k < |Tails(codes[1..], b)|
          ensures !(codes[0][1..] <= Tails(codes[1..], b)[k])
          ensures !(Tails(codes[1..], b)[k] <= codes[0][1..])
        {
          HeadApart(codes, k);
        }
        PrefixFreeCons(codes[0][1..], Tails(codes[1..], b));
      }
    }
  }

  lemma HeadApart(codes: seq<Code>, k: nat)
    requires codes != []
    requires NoneEmpty(codes)
    requires PrefixFree(codes)
    requires k < |Tails(codes[1..], codes[0][0])|
    ensures !(codes[0][1..] <= Tails(codes[1..], codes[0][0])[k])
    ensures !(Tails(codes[1..], codes[0][0])[k] <= codes[0][1..])
  {
    var b := codes[0][0];
    var t := Tails(codes[1..], b)[k];
    var i := TailComesFromCode(codes[1..], b, k);
    assert codes[i + 1] == [b] + t;
    assert codes[0] == [b] + codes[0][1..];
    PrefixBehindBit(b, codes[0][1..], t);
    PrefixBehindBit(b, t, codes[0][1..]);
  }

  lemma {:induction false} TailsSplit(codes: seq<Code>, D: nat)
    requires LengthsWithin(codes, D + 1) && NoneEmpty(codes)
    ensures LengthsWithin(Tails(codes, 0), D) && LengthsWithin(Tails(codes, 1), D)
    ensures KraftUnits(codes, D + 1) == KraftUnits(Tails(codes, 0), D) + KraftUnits(Tails(codes, 1), D)
  {
    if codes != [] {
      TailsSplit(codes[1..], D);
      if codes[0][0] == 0 {
        assert Tails(codes, 0)[1..] == Tails(codes[1..], 0);
      } else {
        assert Tails(codes, 1)[1..] == Tails(codes[1..], 1);
      }
    }
  }

  /** Kraft's inequality: a prefix-free family never spends more than the whole unit. */
  lemma {:induction false} KraftInequality(codes: seq<Code>, D: nat)
    requires LengthsWithin(codes, D) && PrefixFree(codes)
    ensures KraftUnits(codes, D) <= Pow2(D)
    decreases D
  {
    if |codes| <= 1 {
      KraftOfAtMostOne(codes, D);
    } else {
      SplitByFirstBit(codes, D);
      TailsPrefixFree(codes, 0);
      TailsPrefixFree(codes, 1);
      KraftInequality(Tails(codes, 0), D - 1);
      KraftInequality(Tails(codes, 1), D - 1);
    }
  }

  lemma SplitByFirstBit(codes: seq<Code>, D: nat)
    requires LengthsWithin(codes, D) && PrefixFree(codes) && |codes| > 1
    ensures D > 0 && NoneEmpty(codes)
    ensures LengthsWithin(Tails(codes, 0), D - 1) && LengthsWithin(Tails(codes, 1), D - 1)
    ensures KraftUnits(codes, D) == KraftUnits(Tails(codes, 0), D - 1) + KraftUnits(Tails(codes, 1), D - 1)
  {
    NoEmptyCode(codes);
    assert codes[0] != [] && |codes[0]| <= D;
    TailsSplit(codes, D - 1);
  }

  lemma KraftOfAtMostOne(codes: seq<Code>, D: nat)
    requires LengthsWithin(codes, D) && |codes| <= 1
    ensures KraftUnits(codes, D) <= Pow2(D)
  {
    if |codes| == 1 {
      assert codes[1..] == [];
      Pow2Monotone(D - |codes[0]|, D);
    }
  }

  lemma NoEmptyCode(codes: seq<Code>)
    requires PrefixFree(codes) && |codes| > 1
    ensures NoneEmpty(codes)
  {
    forall i | 0 <= i < |codes|
      ensures codes[i] != []
    {
      var j := if i == 0 then 1 else 0;
      assert !(codes[i] <= codes[j]);
    }
  }
}
