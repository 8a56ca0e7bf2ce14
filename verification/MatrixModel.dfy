/** One flat matrix, its shards, and what splitting a request among the servers does. */
module MatrixModel {
  import opened RowRanges

  /** What an updater makes of a stored row and a delta. */
  type Updater<!Row> = (Row, Row) -> Row

  ghost predicate Within(keys: seq<int>, lo: int, hi: int)
  {
    forall j :: 0 <= j < |keys| ==> lo <= keys[j] < hi
  }

  /** The key of a request for the whole table. */
  const WHOLE_TABLE := -1

  predicate IsWhole(keys: seq<int>)
  {
    |keys| == 1 && keys[0] == WHOLE_TABLE
  }

  /** The first k row updates, one after the other; base is the number of the first row. */
  function AddRows<Row>(m: seq<Row>, base: nat, keys: seq<int>, rows: seq<Row>, up: Updater<Row>, k: nat)
    : (m': seq<Row>)
    requires k <= |keys| == |rows| && Within(keys, base, base + |m|)
    ensures |m'| == |m|
  {
    if k == 0 then m
    else
      var m1 := AddRows(m, base, keys, rows, up, k - 1);
      m1[keys[k - 1] - base := up(m1[keys[k - 1] - base], rows[k - 1])]
  }

  /** Requests one after the other: first a with x, then b with y. */
  lemma {:induction false} AddRowsCat<Row>(m: seq<Row>, base: nat, a: seq<int>, x: seq<Row>, b: seq<int>, y: seq<Row>,
                                           up: Updater<Row>, k: nat)
    requires |x| == |a| && |y| == |b| && k <= |b| && Within(a, base, base + |m|) && Within(b, base, base + |m|)
    ensures Within(a + b, base, base + |m|)
    ensures AddRows(m, base, a + b, x + y, up, |a| + k) == AddRows(AddRows(m, base, a, x, up, |a|), base, b, y, up, k)
  {
    if k == 0 {
      AddRowsFirst(m, base, a, x, b, y, up, |a|);
    } else {
      AddRowsCat(m, base, a, x, b, y, up, k - 1);
      assert (a + b)[|a| + k - 1] == b[k - 1] && (x + y)[|a| + k - 1] == y[k - 1];
    }
  }

  lemma {:induction false} AddRowsFirst<Row>(m: seq<Row>, base: nat, a: seq<int>, x: seq<Row>, b: seq<int>, y: seq<Row>,
                                             up: Updater<Row>, k: nat)
    requires |x| == |a| && |y| == |b| && k <= |a| && Within(a, base, base + |m|) && Within(b, base, base + |m|)
    ensures Within(a + b, base, base + |m|)
    ensures AddRows(m, base, a + b, x + y, up, k) == AddRows(m, base, a, x, up, k)
  {
    if k > 0 {
      AddRowsFirst(m, base, a, x, b, y, up, k - 1);
      assert (a + b)[k - 1] == a[k - 1] && (x + y)[k - 1] == x[k - 1];
    }
  }

  /** A request for one row. */
  lemma AddRowsOne<Row>(m: seq<Row>, base: nat, key: int, row: Row, up: Updater<Row>)
    requires base <= key < base + |m|
    ensures AddRows(m, base, [key], [row], up, 1) == m[key - base := up(m[key - base], row)]
  {
    assert AddRows(m, base, [key], [row], up, 0) == m;
  }

  /** A row that is not among the keys stays, one that is named once is updated once. */
  lemma {:induction false} AddRowsAt<Row>(m: seq<Row>, base: nat, keys: seq<int>, rows: seq<Row>, up: Updater<Row>,
                                          k: nat, r: nat)
    requires k <= |keys| == |rows| && Within(keys, base, base + |m|) && r < |m|
    ensures (forall j :: 0 <= j < k ==> keys[j] != base + r) ==> AddRows(m, base, keys, rows, up, k)[r] == m[r]
    ensures forall i :: 0 <= i < k && keys[i] == base + r && (forall j :: 0 <= j < k && j != i ==> keys[j] != base + r)
              ==> AddRows(m, base, keys, rows, up, k)[r] == up(m[r], rows[i])
  {
    if k > 0 {
      AddRowsAt(m, base, keys, rows, up, k - 1, r);
    }
  }

  /** What a row is after the deltas that name it, one after the other. */
  function RowAfter<Row>(row: Row, key: int, keys: seq<int>, rows: seq<Row>, up: Updater<Row>, k: nat): Row
    requires k <= |keys| == |rows|
  {
    if k == 0 then row
    else if keys[k - 1] == key then up(RowAfter(row, key, keys, rows, up, k - 1), rows[k - 1])
    else RowAfter(row, key, keys, rows, up, k - 1)
  }

  lemma {:induction false} AddRowsByRow<Row>(m: seq<Row>, base: nat, keys: seq<int>, rows: seq<Row>, up: Updater<Row>,
                                             k: nat, r: nat)
    requires k <= |keys| == |rows| && Within(keys, base, base + |m|) && r < |m|
    ensures AddRows(m, base, keys, rows, up, k)[r] == RowAfter(m[r], base + r, keys, rows, up, k)
  {
    if k > 0 {
      AddRowsByRow(m, base, keys, rows, up, k - 1, r);
    }
  }

  /** The rows after a request for listed rows. Every row takes the deltas that name it, in order. */
  ghost predicate RowsUpdated<Row>(before: seq<Row>, after: seq<Row>, base: nat, keys: seq<int>, rows: seq<Row>,
                                   up: Updater<Row>)
    requires |keys| == |rows| && Within(keys, base, base + |before|)
  {
    && |after| == |before|
    && (forall r :: 0 <= r < |before| ==> after[r] == RowAfter(before[r], base + r, keys, rows, up, |keys|))
    && (forall r :: 0 <= r < |before| && base + r !in keys ==> after[r] == before[r])
    && (DistinctKeys(keys) ==>
          forall j :: 0 <= j < |keys| ==> after[keys[j] - base] == up(before[keys[j] - base], rows[j]))
  }

  lemma AddRowsUpdates<Row>(m: seq<Row>, base: nat, keys: seq<int>, rows: seq<Row>, up: Updater<Row>)
    requires |keys| == |rows| && Within(keys, base, base + |m|)
    ensures RowsUpdated(m, AddRows(m, base, keys, rows, up, |keys|), base, keys, rows, up)
  {
    forall r: nat | r < |m|
      ensures AddRows(m, base, keys, rows, up, |keys|)[r] == RowAfter(m[r], base + r, keys, rows, up, |keys|)
      ensures base + r !in keys ==> AddRows(m, base, keys, rows, up, |keys|)[r] == m[r]
    {
      AddRowsByRow(m, base, keys, rows, up, |keys|, r);
      AddRowsAt(m, base, keys, rows, up, |keys|, r);
    }
    if DistinctKeys(keys) {
      forall j: nat | j < |keys|
        ensures AddRows(m, base, keys, rows, up, |keys|)[keys[j] - base] == up(m[keys[j] - base], rows[j])
      {
        AddRowsAt(m, base, keys, rows, up, |keys|, keys[j] - base);
      }
    }
  }

  function AddAll<Row>(m: seq<Row>, rows: seq<Row>, up: Updater<Row>): (m': seq<Row>)
    requires |rows| == |m|
    ensures |m'| == |m| && forall r :: 0 <= r < |m| ==> m'[r] == up(m[r], rows[r])
  {
    seq(|m|, r requires 0 <= r < |m| => up(m[r], rows[r]))
  }

  function Shard<Row>(m: seq<Row>, offsets: seq<nat>, i: nat): (s: seq<Row>)
    requires i + 1 < |offsets| && offsets[i] <= offsets[i + 1] <= |m|
    ensures |s| == offsets[i + 1] - offsets[i]
  {
    m[offsets[i]..offsets[i + 1]]
  }

  /** Those of the first k keys that server i owns, in order. */
  function PartKeys(offsets: seq<nat>, keys: seq<int>, i: nat, k: nat): (part: seq<int>)
    requires k <= |keys|
    ensures |part| <= k
  {
    if k == 0 then []
    else if Owns(offsets, i, keys[k - 1]) then PartKeys(offsets, keys, i, k - 1) + [keys[k - 1]]
    else PartKeys(offsets, keys, i, k - 1)
  }

  /** The rows that belong to these keys. */
  function PartRows<Row>(offsets: seq<nat>, keys: seq<int>, rows: seq<Row>, i: nat, k: nat): (part: seq<Row>)
    requires k <= |keys| == |rows|
    ensures |part| == |PartKeys(offsets, keys, i, k)|
  {
    if k == 0 then []
    else if Owns(offsets, i, keys[k - 1]) then PartRows(offsets, keys, rows, i, k - 1) + [rows[k - 1]]
    else PartRows(offsets, keys, rows, i, k - 1)
  }

  lemma {:induction false} PartWithin(offsets: seq<nat>, keys: seq<int>, i: nat, k: nat)
    requires k <= |keys| && i + 1 < |offsets|
    ensures Within(PartKeys(offsets, keys, i, k), offsets[i], offsets[i + 1])
  {
    if k > 0 {
      PartWithin(offsets, keys, i, k - 1);
    }
  }

  lemma {:induction false} AddRowsPrefix<Row>(m: seq<Row>, base: nat, keys: seq<int>, rows: seq<Row>,
                                              key: int, row: Row, up: Updater<Row>, k: nat)
    requires k <= |keys| == |rows| && Within(keys + [key], base, base + |m|)
    ensures Within(keys, base, base + |m|)
    ensures AddRows(m, base, keys + [key], rows + [row], up, k) == AddRows(m, base, keys, rows, up, k)
  {
    assert forall j :: 0 <= j < |keys| ==> keys[j] == (keys + [key])[j];
    if k > 0 {
      AddRowsPrefix(m, base, keys, rows, key, row, up, k - 1);
    }
  }

  /** What server i makes of its part of the request. */
  ghost function PartAdded<Row>(m: seq<Row>, offsets: seq<nat>, keys: seq<int>, rows: seq<Row>, up: Updater<Row>,
                                i: nat, k: nat): seq<Row>
    requires IsLayout(offsets, |m|) && i + 1 < |offsets| && k <= |keys| == |rows|
  {
    PartWithin(offsets, keys, i, k);
    var part := PartKeys(offsets, keys, i, k);
    AddRows(Shard(m, offsets, i), offsets[i], part, PartRows(offsets, keys, rows, i, k), up, |part|)
  }

  lemma PartAddedStep<Row>(m: seq<Row>, offsets: seq<nat>, keys: seq<int>, rows: seq<Row>, up: Updater<Row>, i: nat,
                           k: nat)
    requires IsLayout(offsets, |m|) && i + 1 < |offsets| && 0 < k <= |keys| == |rows|
    requires Owns(offsets, i, keys[k - 1])
    ensures |PartAdded(m, offsets, keys, rows, up, i, k - 1)| == offsets[i + 1] - offsets[i]
    ensures var before := PartAdded(m, offsets, keys, rows, up, i, k - 1);
            var at := keys[k - 1] - offsets[i];
            PartAdded(m, offsets, keys, rows, up, i, k) == before[at := up(before[at], rows[k - 1])]
  {
    PartWithin(offsets, keys, i, k);
    var part, partRows := PartKeys(offsets, keys, i, k - 1), PartRows(offsets, keys, rows, i, k - 1);
    AddRowsPrefix(Shard(m, offsets, i), offsets[i], part, partRows, keys[k - 1], rows[k - 1], up, |part|);
  }

  /** The servers' updates of their own parts are the flat matrix's update, shard by shard. */
  lemma {:induction false} PartsAreShards<Row>(m: seq<Row>, offsets: seq<nat>, keys: seq<int>, rows: seq<Row>,
                                               up: Updater<Row>, i: nat, k: nat)
    requires IsLayout(offsets, |m|) && i + 1 < |offsets| && k <= |keys| == |rows| && Within(keys, 0, |m|)
    ensures offsets[i] <= offsets[i + 1] <= |m|
    ensures PartAdded(m, offsets, keys, rows, up, i, k) == Shard(AddRows(m, 0, keys, rows, up, k), offsets, i)
  {
    if k > 0 {
      PartsAreShards(m, offsets, keys, rows, up, i, k - 1);
      var flat := AddRows(m, 0, keys, rows, up, k - 1);
      if Owns(offsets, i, keys[k - 1]) {
        PartAddedStep(m, offsets, keys, rows, up, i, k);
        assert Shard(flat, offsets, i)[keys[k - 1] - offsets[i]] == flat[keys[k - 1]];
      }
    }
  }

  // ---- distinct rows ----

  ghost predicate DistinctKeys(keys: seq<int>)
  {
    forall i, j :: 0 <= i < j < |keys| ==> keys[i] != keys[j]
  }

  /** Numbers lo, lo + 1, ..., hi - 1. */
  ghost function Span(lo: int, hi: int): (s: set<int>)
    requires lo <= hi
    ensures |s| == hi - lo && forall x :: x in s <==> lo <= x < hi
    decreases hi - lo
  {
    if lo == hi then {} else Span(lo, hi - 1) + {hi - 1}
  }

  ghost function KeySet(keys: seq<int>, k: nat): (s: set<int>)
    requires k <= |keys|
  {
    if k == 0 then {} else KeySet(keys, k - 1) + {keys[k - 1]}
  }

  lemma {:induction false} InKeySet(keys: seq<int>, k: nat, x: int)
    requires k <= |keys|
    ensures x in KeySet(keys, k) <==> exists j :: 0 <= j < k && keys[j] == x
  {
    if k > 0 {
      InKeySet(keys, k - 1, x);
    }
  }

  lemma KeySetSnoc(s: seq<int>, x: int)
    ensures KeySet(s + [x], |s| + 1) == KeySet(s, |s|) + {x}
  {
    KeySetPrefix(s, x, |s|);
  }

  lemma {:induction false} KeySetPrefix(s: seq<int>, x: int, k: nat)
    requires k <= |s|
    ensures KeySet(s + [x], k) == KeySet(s, k)
  {
    if k > 0 {
      KeySetPrefix(s, x, k - 1);
    }
  }

  lemma {:induction false} DistinctCount(keys: seq<int>, k: nat)
    requires DistinctKeys(keys) && k <= |keys|
    ensures |KeySet(keys, k)| == k
  {
    if k > 0 {
      DistinctCount(keys, k - 1);
      InKeySet(keys, k - 1, keys[k - 1]);
    }
  }

  lemma SubsetCount<T>(s: set<T>, t: set<T>)
    requires s <= t
    ensures |s| <= |t|
  {
    assert t == s + (t - s);
  }

  /** At most as many distinct keys as there are rows. */
  lemma DistinctFit(keys: seq<int>, lo: int, hi: int)
    requires DistinctKeys(keys) && Within(keys, lo, hi) && lo <= hi
    ensures |keys| <= hi - lo
  {
    DistinctCount(keys, |keys|);
    forall x | x in KeySet(keys, |keys|)
      ensures lo <= x < hi
    {
      InKeySet(keys, |keys|, x);
    }
    SubsetCount(KeySet(keys, |keys|), Span(lo, hi));
  }

  lemma {:induction false} PartFrom(offsets: seq<nat>, keys: seq<int>, i: nat, k: nat, a: nat) returns (j: nat)
    requires k <= |keys| && a < |PartKeys(offsets, keys, i, k)|
    ensures a <= j < k && PartKeys(offsets, keys, i, k)[a] == keys[j]
  {
    if a < |PartKeys(offsets, keys, i, k - 1)| {
      j := PartFrom(offsets, keys, i, k - 1, a);
    } else {
      j := k - 1;
    }
  }

  lemma {:induction false} PartDistinct(offsets: seq<nat>, keys: seq<int>, i: nat, k: nat)
    requires DistinctKeys(keys) && k <= |keys|
    ensures DistinctKeys(PartKeys(offsets, keys, i, k))
  {
    if k > 0 {
      PartDistinct(offsets, keys, i, k - 1);
      var part := PartKeys(offsets, keys, i, k);
      var less := PartKeys(offsets, keys, i, k - 1);
      forall a: nat | a < |less|
        ensures less[a] != keys[k - 1]
      {
        var j := PartFrom(offsets, keys, i, k - 1, a);
      }
    }
  }

  /** With distinct rows no server is asked for more rows than it has. */
  lemma DistinctPartsFit(offsets: seq<nat>, numRow: nat, keys: seq<int>, i: nat)
    requires IsLayout(offsets, numRow) && i + 1 < |offsets| && DistinctKeys(keys)
    ensures |PartKeys(offsets, keys, i, |keys|)| <= offsets[i + 1] - offsets[i]
  {
    PartWithin(offsets, keys, i, |keys|);
    PartDistinct(offsets, keys, i, |keys|);
    DistinctFit(PartKeys(offsets, keys, i, |keys|), offsets[i], offsets[i + 1]);
  }

  // ---- leaving out rows that change nothing ----

  /** The rows of a whole-table delta that are not zero, in order. */
  function NonZero<Row(==)>(rows: seq<Row>, zero: Row, k: nat): (keys: seq<int>)
    requires k <= |rows|
    ensures Within(keys, 0, k)
  {
    if k == 0 then []
    else if rows[k - 1] != zero then NonZero(rows, zero, k - 1) + [k - 1]
    else NonZero(rows, zero, k - 1)
  }

  /** Exactly the rows that are not zero, each once. */
  lemma {:induction false} NonZeroExactly<Row>(rows: seq<Row>, zero: Row, k: nat)
    requires k <= |rows|
    ensures forall r :: r in NonZero(rows, zero, k) <==> 0 <= r < k && rows[r] != zero
    ensures Ascending(NonZero(rows, zero, k))
  {
    if k > 0 {
      NonZeroExactly(rows, zero, k - 1);
      AscendingSnoc(NonZero(rows, zero, k - 1), k - 1);
    }
  }

  ghost predicate Ascending(keys: seq<int>)
  {
    forall i, j :: 0 <= i < j < |keys| ==> keys[i] < keys[j]
  }

  lemma AscendingSnoc(keys: seq<int>, x: int)
    requires Ascending(keys) && Within(keys, 0, x)
    ensures Ascending(keys + [x])
  {
  }

  /** What a whole-table add to a sparse table sends. */
  method PickNonZero<Row(==)>(rows: seq<Row>, zero: Row) returns (ids: seq<int>, picked: seq<Row>)
    ensures forall r :: r in ids <==> 0 <= r < |rows| && rows[r] != zero
    ensures Ascending(ids)
    ensures |picked| == |ids| && forall j :: 0 <= j < |ids| ==> 0 <= ids[j] < |rows| && picked[j] == rows[ids[j]]
    ensures ids == NonZero(rows, zero, |rows|) && picked == RowsAt(rows, ids)
  {
    NonZeroExactly(rows, zero, |rows|);
    ids := [];
    for i := 0 to |rows|
      invariant ids == NonZero(rows, zero, i)
    {
      if rows[i] != zero {
        ids := ids + [i];
      }
    }
    picked := [];
    for i := 0 to |ids|
      invariant |picked| == i && forall j :: 0 <= j < i ==> picked[j] == rows[ids[j]]
    {
      picked := picked + [rows[ids[i]]];
    }
  }

  function RowsAt<Row>(rows: seq<Row>, keys: seq<int>): (s: seq<Row>)
    requires Within(keys, 0, |rows|)
    ensures |s| == |keys| && forall j :: 0 <= j < |keys| ==> s[j] == rows[keys[j]]
  {
    seq(|keys|, j requires 0 <= j < |keys| => rows[keys[j]])
  }

  ghost predicate ChangesNothing<Row(!new)>(up: Updater<Row>, zero: Row)
  {
    forall r :: up(r, zero) == r
  }

  lemma OneMoreAdded<Row>(m: seq<Row>, rows: seq<Row>, up: Updater<Row>, k: nat)
    requires 0 < k <= |rows| == |m|
    ensures var before := AddAll(m[..k - 1], rows[..k - 1], up) + m[k - 1..];
            && |before| == |m| && before[k - 1] == m[k - 1]
            && AddAll(m[..k], rows[..k], up) + m[k..] == before[k - 1 := up(m[k - 1], rows[k - 1])]
  {
  }

  lemma NonZeroAdded<Row>(m: seq<Row>, rows: seq<Row>, zero: Row, up: Updater<Row>, k: nat)
    requires 0 < k <= |rows| == |m| && rows[k - 1] != zero
    ensures var keys, less := NonZero(rows, zero, k), NonZero(rows, zero, k - 1);
            var before := AddRows(m, 0, less, RowsAt(rows, less), up, |less|);
            AddRows(m, 0, keys, RowsAt(rows, keys), up, |keys|) == before[k - 1 := up(before[k - 1], rows[k - 1])]
  {
    var less := NonZero(rows, zero, k - 1);
    assert RowsAt(rows, less + [k - 1]) == RowsAt(rows, less) + [rows[k - 1]];
    AddRowsPrefix(m, 0, less, RowsAt(rows, less), k - 1, rows[k - 1], up, |less|);
  }

  /** Updating only the non-zero rows is updating the whole table, if zero rows change nothing. */
  lemma {:induction false} ZeroRowsMayBeSkipped<Row(!new)>(m: seq<Row>, rows: seq<Row>, zero: Row, up: Updater<Row>,
                                                           k: nat)
    requires k <= |rows| == |m| && ChangesNothing(up, zero)
    ensures var keys := NonZero(rows, zero, k);
            AddRows(m, 0, keys, RowsAt(rows, keys), up, |keys|) == AddAll(m[..k], rows[..k], up) + m[k..]
  {
    if k == 0 {
      assert AddAll(m[..0], rows[..0], up) + m[0..] == m;
    } else {
      ZeroRowsMayBeSkipped(m, rows, zero, up, k - 1);
      OneMoreAdded(m, rows, up, k);
      if rows[k - 1] != zero {
        NonZeroAdded(m, rows, zero, up, k);
      } else {
        assert up(m[k - 1], zero) == m[k - 1];
      }
    }
  }
}
