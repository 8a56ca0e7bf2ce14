/** The sparse matrix: a get sends a worker only the rows that it has not been sent since they changed.
    One server's shard, rows base to base + n - 1. */
module SparseMirror {
  import opened MatrixModel

  /** upToDate[w][r]: worker w has been sent row r since it last changed. */
  datatype Shard<Row> = Shard(rows: seq<Row>, upToDate: seq<seq<bool>>)

  datatype Reply<Row> = Reply(keys: seq<int>, rows: seq<Row>)

  ghost predicate IsShard<Row>(s: Shard<Row>, numWorkers: nat)
  {
    && s.rows != [] && |s.upToDate| == numWorkers
    && forall w :: 0 <= w < numWorkers ==> |s.upToDate[w]| == |s.rows|
  }

  /** The requests that a server of rows base to base + n - 1 may be sent. */
  predicate Routed(keys: seq<int>, base: nat, n: nat)
  {
    IsWhole(keys) || forall j :: 0 <= j < |keys| ==> base <= keys[j] < base + n
  }

  /** The sizes that the server checks. */
  predicate SizesMatch<Row>(n: nat, keys: seq<int>, rows: seq<Row>)
  {
    if IsWhole(keys) then |rows| == n else |rows| == |keys| <= n
  }

  ghost predicate MayAdd<Row>(s: Shard<Row>, base: nat, keys: seq<int>, rows: seq<Row>)
  {
    Routed(keys, base, |s.rows|) && SizesMatch(|s.rows|, keys, rows)
  }

  /** The flags after the first k keys have been cleared. */
  function Cleared(flags: seq<bool>, base: nat, keys: seq<int>, k: nat): (f: seq<bool>)
    requires k <= |keys| && Within(keys, base, base + |flags|)
    ensures |f| == |flags|
  {
    if k == 0 then flags else Cleared(flags, base, keys, k - 1)[keys[k - 1] - base := false]
  }

  function ClearedBy(flags: seq<bool>, base: nat, keys: seq<int>): (f: seq<bool>)
    requires IsWhole(keys) || Within(keys, base, base + |flags|)
    ensures |f| == |flags|
  {
    if IsWhole(keys) then seq(|flags|, _ => false) else Cleared(flags, base, keys, |keys|)
  }

  lemma {:induction false} ClearedAt(flags: seq<bool>, base: nat, keys: seq<int>, k: nat, r: nat)
    requires k <= |keys| && Within(keys, base, base + |flags|) && r < |flags|
    ensures Cleared(flags, base, keys, k)[r] <==> flags[r] && forall j :: 0 <= j < k ==> keys[j] != base + r
  {
    if k > 0 {
      ClearedAt(flags, base, keys, k - 1, r);
    }
  }

  /** After an add: a flag is still set exactly if it was and the row is not added to. */
  ghost predicate FlagsCleared(before: seq<bool>, after: seq<bool>, base: nat, keys: seq<int>)
  {
    && |after| == |before|
    && forall r :: 0 <= r < |before| ==> (after[r] <==> before[r] && keys != [-1] && base + r !in keys)
  }

  lemma ClearedExactly(flags: seq<bool>, base: nat, keys: seq<int>)
    requires IsWhole(keys) || Within(keys, base, base + |flags|)
    ensures FlagsCleared(flags, ClearedBy(flags, base, keys), base, keys)
  {
    if keys != [-1] {
      forall r: nat | r < |flags|
        ensures ClearedBy(flags, base, keys)[r] <==> flags[r] && base + r !in keys
      {
        ClearedAt(flags, base, keys, |keys|, r);
      }
    }
  }

  function Outdate<Row>(s: Shard<Row>, base: nat, keys: seq<int>): (t: Shard<Row>)
    requires Routed(keys, base, |s.rows|) && IsShard(s, |s.upToDate|)
    ensures t.rows == s.rows && IsShard(t, |s.upToDate|)
  {
    s.(upToDate := seq(|s.upToDate|, w requires 0 <= w < |s.upToDate| => ClearedBy(s.upToDate[w], base, keys)))
  }

  function AfterAdd<Row>(s: Shard<Row>, base: nat, keys: seq<int>, rows: seq<Row>, up: Updater<Row>): (t: Shard<Row>)
    requires MayAdd(s, base, keys, rows) && IsShard(s, |s.upToDate|)
    ensures |t.rows| == |s.rows| && IsShard(t, |s.upToDate|)
  {
    Outdate(s, base, keys).(rows := if IsWhole(keys) then AddAll(s.rows, rows, up)
                                    else AddRows(s.rows, base, keys, rows, up, |keys|))
  }

  /** Those of the first k rows that are outdated, by their numbers in the table. */
  function Outdated(flags: seq<bool>, base: nat, k: nat): (keys: seq<int>)
    requires k <= |flags|
    ensures Within(keys, base, base + k)
  {
    if k == 0 then []
    else if !flags[k - 1] then Outdated(flags, base, k - 1) + [base + k - 1]
    else Outdated(flags, base, k - 1)
  }

  function AllRows(base: nat, n: nat): (keys: seq<int>)
    ensures |keys| == n && forall r :: 0 <= r < n ==> keys[r] == base + r
  {
    seq(n, r requires 0 <= r < n => base + r)
  }

  /** The rows a whole-table get of a worker is answered with; a worker without a number gets all. */
  function SentKeys<Row>(s: Shard<Row>, base: nat, worker: int): (keys: seq<int>)
    requires IsShard(s, |s.upToDate|) && -1 <= worker < |s.upToDate|
    ensures Within(keys, base, base + |s.rows|)
  {
    if worker == -1 then AllRows(base, |s.rows|)
    else
      var keys := Outdated(s.upToDate[worker], base, |s.rows|);
      if keys == [] then [base] else keys
  }

  function AfterGet<Row>(s: Shard<Row>, worker: int): (t: Shard<Row>)
    requires IsShard(s, |s.upToDate|) && -1 <= worker < |s.upToDate|
    ensures IsShard(t, |s.upToDate|)
  {
    if worker == -1 then s
    else s.(upToDate := s.upToDate[worker := seq(|s.rows|, _ => true)])
  }

  function RowsOf<Row>(s: Shard<Row>, base: nat, keys: seq<int>): (r: Reply<Row>)
    requires Within(keys, base, base + |s.rows|)
    ensures r.keys == keys && |r.rows| == |keys|
    ensures forall j :: 0 <= j < |keys| ==> r.rows[j] == s.rows[keys[j] - base]
  {
    Reply(keys, seq(|keys|, j requires 0 <= j < |keys| => s.rows[keys[j] - base]))
  }

  function ReplyTo<Row>(s: Shard<Row>, base: nat, worker: int): (r: Reply<Row>)
    requires IsShard(s, |s.upToDate|) && -1 <= worker < |s.upToDate|
    ensures |r.keys| == |r.rows| && Within(r.keys, base, base + |s.rows|)
    ensures forall j :: 0 <= j < |r.keys| ==> r.rows[j] == s.rows[r.keys[j] - base]
  {
    RowsOf(s, base, SentKeys(s, base, worker))
  }

  /** Exactly the outdated rows, in order. */
  lemma {:induction false} OutdatedExactly(flags: seq<bool>, base: nat, k: nat)
    requires k <= |flags|
    ensures forall x :: x in Outdated(flags, base, k) <==> base <= x < base + k && !flags[x - base]
    ensures Ascending(Outdated(flags, base, k))
  {
    if k > 0 {
      OutdatedExactly(flags, base, k - 1);
      AscendingSnoc(Outdated(flags, base, k - 1), base + k - 1);
    }
  }

  // ---- gets of listed rows ----

  /** The flags after the first k keys have been set. */
  function Marked(flags: seq<bool>, base: nat, keys: seq<int>, k: nat): (f: seq<bool>)
    requires k <= |keys| && Within(keys, base, base + |flags|)
    ensures |f| == |flags|
  {
    if k == 0 then flags else Marked(flags, base, keys, k - 1)[keys[k - 1] - base := true]
  }

  /** Those of the first k keys that are outdated when their turn comes. */
  function OutdatedListed(flags: seq<bool>, base: nat, keys: seq<int>, k: nat): (out: seq<int>)
    requires k <= |keys| && Within(keys, base, base + |flags|)
    ensures Within(out, base, base + |flags|)
  {
    if k == 0 then []
    else if !Marked(flags, base, keys, k - 1)[keys[k - 1] - base] then
      OutdatedListed(flags, base, keys, k - 1) + [keys[k - 1]]
    else OutdatedListed(flags, base, keys, k - 1)
  }

  lemma MarkedNext(flags: seq<bool>, base: nat, keys: seq<int>, i: nat)
    requires i < |keys| && Within(keys, base, base + |flags|)
    ensures var f, out, at := Marked(flags, base, keys, i), OutdatedListed(flags, base, keys, i), keys[i] - base;
            && Marked(flags, base, keys, i + 1) == (if f[at] then f else f[at := true])
            && OutdatedListed(flags, base, keys, i + 1) == (if f[at] then out else out + [keys[i]])
  {
    var f, at := Marked(flags, base, keys, i), keys[i] - base;
    assert f[at] ==> f[at := true] == f;
  }

  /** The rows that any get is answered with. */
  function SentFor<Row>(s: Shard<Row>, base: nat, worker: int, asked: seq<int>): (keys: seq<int>)
    requires IsShard(s, |s.upToDate|) && -1 <= worker < |s.upToDate| && Routed(asked, base, |s.rows|)
    ensures Within(keys, base, base + |s.rows|)
  {
    if worker == -1 || IsWhole(asked) then SentKeys(s, base, worker)
    else
      var keys := OutdatedListed(s.upToDate[worker], base, asked, |asked|);
      if keys == [] then [base] else keys
  }

  function AfterAnyGet<Row>(s: Shard<Row>, base: nat, worker: int, asked: seq<int>): (t: Shard<Row>)
    requires IsShard(s, |s.upToDate|) && -1 <= worker < |s.upToDate| && Routed(asked, base, |s.rows|)
    ensures IsShard(t, |s.upToDate|)
  {
    if worker == -1 || IsWhole(asked) then AfterGet(s, worker)
    else s.(upToDate := s.upToDate[worker := Marked(s.upToDate[worker], base, asked, |asked|)])
  }

  lemma {:induction false} MarkedAt(flags: seq<bool>, base: nat, keys: seq<int>, k: nat, r: nat)
    requires k <= |keys| && Within(keys, base, base + |flags|) && r < |flags|
    ensures Marked(flags, base, keys, k)[r] == (flags[r] || base + r in KeySet(keys, k))
  {
    if k > 0 {
      MarkedAt(flags, base, keys, k - 1, r);
    }
  }

  /** Of the listed rows exactly the outdated ones are sent. */
  lemma {:induction false} OutdatedAreSent(flags: seq<bool>, base: nat, keys: seq<int>, k: nat, r: nat)
    requires k <= |keys| && Within(keys, base, base + |flags|) && r < |flags|
    ensures IsSent(flags, base, keys, k, r) <==> base + r in KeySet(keys, k) && !flags[r]
  {
    if k > 0 {
      OutdatedAreSent(flags, base, keys, k - 1, r);
      MarkedAt(flags, base, keys, k - 1, r);
      SentNext(flags, base, keys, k - 1, r);
    }
  }

  ghost predicate IsSent(flags: seq<bool>, base: nat, keys: seq<int>, k: nat, r: nat)
    requires k <= |keys| && Within(keys, base, base + |flags|)
  {
    var out := OutdatedListed(flags, base, keys, k);
    base + r in KeySet(out, |out|)
  }

  lemma SentNext(flags: seq<bool>, base: nat, keys: seq<int>, i: nat, r: nat)
    requires i < |keys| && Within(keys, base, base + |flags|) && r < |flags|
    ensures IsSent(flags, base, keys, i + 1, r) <==>
            IsSent(flags, base, keys, i, r) || (keys[i] == base + r && !Marked(flags, base, keys, i)[r])
  {
    OutdatedNext(flags, base, keys, i);
  }

  lemma OutdatedNext(flags: seq<bool>, base: nat, keys: seq<int>, i: nat)
    requires i < |keys| && Within(keys, base, base + |flags|)
    ensures var out, more := OutdatedListed(flags, base, keys, i), OutdatedListed(flags, base, keys, i + 1);
            KeySet(more, |more|) == KeySet(out, |out|)
                                  + if Marked(flags, base, keys, i)[keys[i] - base] then {} else {keys[i]}
  {
    KeySetSnoc(OutdatedListed(flags, base, keys, i), keys[i]);
  }

  /** Each of them once. */
  lemma {:induction false} SentOnce(flags: seq<bool>, base: nat, keys: seq<int>, k: nat)
    requires k <= |keys| && Within(keys, base, base + |flags|)
    ensures DistinctKeys(OutdatedListed(flags, base, keys, k))
  {
    if k > 0 {
      SentOnce(flags, base, keys, k - 1);
      var less, key := OutdatedListed(flags, base, keys, k - 1), keys[k - 1];
      OutdatedAreSent(flags, base, keys, k - 1, key - base);
      MarkedAt(flags, base, keys, k - 1, key - base);
      if !Marked(flags, base, keys, k - 1)[key - base] {
        InKeySet(less, |less|, key);
        assert forall j :: 0 <= j < |less| ==> less[j] != key;
      }
    }
  }

  /** What a get is answered with. Of the rows asked for (all of them, or those listed), exactly the
      outdated ones, each once; the first row of the server if there are none; and all rows of the server
      for a worker without a number. */
  ghost predicate AnswersGet(flags: seq<bool>, base: nat, asked: seq<int>, sent: seq<int>)
  {
    if exists x :: Wanted(flags, base, asked, x) then
      && DistinctKeys(sent) && (asked == [-1] ==> Ascending(sent))
      && forall x :: x in sent <==> Wanted(flags, base, asked, x)
    else sent == [base]
  }

  /** Row x is asked for and outdated. */
  ghost predicate Wanted(flags: seq<bool>, base: nat, asked: seq<int>, x: int)
  {
    base <= x < base + |flags| && (asked == [-1] || x in asked) && !flags[x - base]
  }

  lemma WantedAreSent(flags: seq<bool>, base: nat, asked: seq<int>, out: seq<int>)
    requires DistinctKeys(out) && (asked == [-1] ==> Ascending(out))
    requires forall x :: x in out <==> Wanted(flags, base, asked, x)
    ensures AnswersGet(flags, base, asked, if out == [] then [base] else out)
  {
    if out != [] {
      assert out[0] in out;
      assert Wanted(flags, base, asked, out[0]);
    } else {
      assert forall x :: Wanted(flags, base, asked, x) ==> x in out;
    }
  }

  /** The flags after the get: those of the rows asked for are set, the others as before. */
  ghost predicate FlagsSet(before: seq<bool>, after: seq<bool>, base: nat, asked: seq<int>)
  {
    && |after| == |before|
    && forall r :: 0 <= r < |before| ==> (after[r] <==> before[r] || asked == [-1] || base + r in asked)
  }

  lemma WholeGetIsAnswered(flags: seq<bool>, base: nat)
    ensures var out := Outdated(flags, base, |flags|);
            AnswersGet(flags, base, [-1], if out == [] then [base] else out)
  {
    OutdatedExactly(flags, base, |flags|);
    var out := Outdated(flags, base, |flags|);
    forall x: int | true
      ensures x in out <==> Wanted(flags, base, [-1], x)
    {
    }
    WantedAreSent(flags, base, [-1], out);
  }

  lemma InOutdatedListed(flags: seq<bool>, base: nat, asked: seq<int>, x: int)
    requires Within(asked, base, base + |flags|)
    ensures x in OutdatedListed(flags, base, asked, |asked|) <==> Wanted(flags, base, asked, x)
  {
    var out := OutdatedListed(flags, base, asked, |asked|);
    InKeySet(out, |out|, x);
    InKeySet(asked, |asked|, x);
    if base <= x < base + |flags| {
      OutdatedAreSent(flags, base, asked, |asked|, x - base);
    }
  }

  lemma ListedGetIsAnswered(flags: seq<bool>, base: nat, asked: seq<int>)
    requires Within(asked, base, base + |flags|)
    ensures var out := OutdatedListed(flags, base, asked, |asked|);
            AnswersGet(flags, base, asked, if out == [] then [base] else out)
  {
    var out := OutdatedListed(flags, base, asked, |asked|);
    SentOnce(flags, base, asked, |asked|);
    forall x: int | true
      ensures x in out <==> Wanted(flags, base, asked, x)
    {
      InOutdatedListed(flags, base, asked, x);
    }
    WantedAreSent(flags, base, asked, out);
  }

  lemma ListedFlagsAreSet(flags: seq<bool>, base: nat, asked: seq<int>)
    requires Within(asked, base, base + |flags|)
    ensures FlagsSet(flags, Marked(flags, base, asked, |asked|), base, asked)
  {
    forall r: nat | r < |flags|
      ensures Marked(flags, base, asked, |asked|)[r] <==> flags[r] || base + r in asked
    {
      MarkedAt(flags, base, asked, |asked|, r);
      InKeySet(asked, |asked|, base + r);
    }
  }

  /** A worker has asked for all the rows that it is sent. */
  ghost predicate AllAsked(sent: seq<int>, asked: seq<int>)
  {
    forall j :: 0 <= j < |sent| ==> sent[j] in KeySet(asked, |asked|)
  }

  lemma OutdatedAreAsked(flags: seq<bool>, base: nat, asked: seq<int>)
    requires Within(asked, base, base + |flags|)
    ensures AllAsked(OutdatedListed(flags, base, asked, |asked|), asked)
  {
    var out := OutdatedListed(flags, base, asked, |asked|);
    forall j: nat | j < |out|
      ensures out[j] in KeySet(asked, |asked|)
    {
      InKeySet(out, |out|, out[j]);
      OutdatedAreSent(flags, base, asked, |asked|, out[j] - base);
    }
  }

  ghost predicate SomeOutdated(flags: seq<bool>, base: nat, asked: seq<int>)
    requires Within(asked, base, base + |flags|)
  {
    exists j :: 0 <= j < |asked| && !flags[asked[j] - base]
  }

  lemma NoneSentIfCurrent(flags: seq<bool>, base: nat, asked: seq<int>)
    requires Within(asked, base, base + |flags|)
    ensures OutdatedListed(flags, base, asked, |asked|) != [] <==> SomeOutdated(flags, base, asked)
  {
    var out := OutdatedListed(flags, base, asked, |asked|);
    if out != [] {
      InKeySet(out, |out|, out[0]);
      OutdatedAreSent(flags, base, asked, |asked|, out[0] - base);
      InKeySet(asked, |asked|, out[0]);
    }
    if SomeOutdated(flags, base, asked) {
      var j :| 0 <= j < |asked| && !flags[asked[j] - base];
      InKeySet(asked, |asked|, asked[j]);
      OutdatedAreSent(flags, base, asked, |asked|, asked[j] - base);
    }
  }

  /** A worker with a number is sent only listed rows exactly if one of them is outdated, or the first
      row, which is sent in place of none, is among them. */
  lemma ListedGetIsAsked<Row>(s: Shard<Row>, base: nat, worker: nat, asked: seq<int>)
    requires IsShard(s, |s.upToDate|) && worker < |s.upToDate|
    requires !IsWhole(asked) && Within(asked, base, base + |s.rows|)
    ensures AllAsked(SentFor(s, base, worker, asked), asked) <==>
            base in KeySet(asked, |asked|) || SomeOutdated(s.upToDate[worker], base, asked)
  {
    OutdatedAreAsked(s.upToDate[worker], base, asked);
    NoneSentIfCurrent(s.upToDate[worker], base, asked);
    if OutdatedListed(s.upToDate[worker], base, asked, |asked|) == [] {
      assert SentFor(s, base, worker, asked)[0] == base;
    }
  }

  /** The second of two rows is asked for, nothing is outdated: the first row is sent. */
  lemma UnaskedRowIsSent(base: nat)
    ensures var s := Shard([0, 0], [[true, true]]);
            SentFor(s, base, 0, [base + 1]) == [base] && !AllAsked(SentFor(s, base, 0, [base + 1]), [base + 1])
  {
    var s := Shard([0, 0], [[true, true]]);
    assert !SomeOutdated(s.upToDate[0], base, [base + 1]);
    NoneSentIfCurrent(s.upToDate[0], base, [base + 1]);
    assert KeySet([base + 1], 0) == {};
    ListedGetIsAsked(s, base, 0, [base + 1]);
  }

  // ---- the server ----

  /** A server of a table that may be sparse. */
  class SparseServer<Row> {
    const base: nat
    const numWorkers: nat
    const isSparse: bool
    const storage: array<Row>
    const upToDate: array<seq<bool>>

    function Contents(): Shard<Row>
      reads storage, upToDate
    {
      Shard(storage[..], upToDate[..])
    }

    ghost predicate Valid()
      reads storage, upToDate
    {
      (storage as object) != upToDate && IsShard(Contents(), numWorkers)
    }

    constructor (rowOffset: nat, myNumRow: nat, workers: nat, sparse: bool, zero: Row)
      requires myNumRow > 0
      ensures Valid() && base == rowOffset && numWorkers == workers && isSparse == sparse
      ensures fresh(storage) && fresh(upToDate)
      ensures Contents() == Shard(seq(myNumRow, _ => zero), seq(workers, _ => seq(myNumRow, _ => false)))
    {
      base, numWorkers, isSparse := rowOffset, workers, sparse;
      storage := new Row[myNumRow](_ => zero);
      upToDate := new seq<bool>[workers](_ => seq(myNumRow, _ => false));
    }

    /** Every worker's copy of the rows is now outdated. */
    method UpdateAddState(keys: seq<int>)
      requires Valid() && Routed(keys, base, storage.Length)
      modifies upToDate
      ensures Valid()
      ensures forall w :: 0 <= w < numWorkers ==> upToDate[w] == ClearedBy(old(upToDate[w]), base, keys)
      ensures forall w :: 0 <= w < numWorkers ==> FlagsCleared(old(upToDate[w]), upToDate[w], base, keys)
    {
      forall w | 0 <= w < numWorkers
        ensures FlagsCleared(upToDate[w], ClearedBy(upToDate[w], base, keys), base, keys)
      {
        ClearedExactly(upToDate[w], base, keys);
      }
      ghost var flags: seq<seq<bool>> := upToDate[..];
      for id := 0 to upToDate.Length
        invariant forall w :: 0 <= w < upToDate.Length ==> |upToDate[w]| == storage.Length
        invariant forall w :: 0 <= w < id ==> upToDate[w] == ClearedBy(flags[w], base, keys)
        invariant forall w :: id <= w < upToDate.Length ==> upToDate[w] == flags[w]
      {
        upToDate[id] := Clear(upToDate[id], keys);
      }
    }

    method Clear(flags: seq<bool>, keys: seq<int>) returns (f: seq<bool>)
      requires IsWhole(keys) || Within(keys, base, base + |flags|)
      ensures f == ClearedBy(flags, base, keys)
    {
      f := flags;
      if IsWhole(keys) {
        for r := 0 to |f|
          invariant |f| == |flags| && forall q :: 0 <= q < r ==> !f[q]
        {
          f := f[r := false];
        }
      } else {
        for i := 0 to |keys|
          invariant f == Cleared(flags, base, keys, i)
        {
          f := f[keys[i] - base := false];
        }
      }
    }

    /** Picks the rows to send for a whole-table get and marks them as sent. */
    method UpdateWhole(worker: nat) returns (outRows: seq<int>)
      requires Valid() && worker < numWorkers
      modifies upToDate
      ensures Valid() && outRows == Outdated(old(upToDate[worker]), base, storage.Length)
      ensures Contents() == AfterGet(old(Contents()), worker)
    {
      outRows := [];
      ghost var s := Contents();
      var f := upToDate[worker];
      for r := 0 to storage.Length
        invariant |f| == storage.Length && outRows == Outdated(s.upToDate[worker], base, r)
        invariant forall q :: 0 <= q < r ==> f[q]
        invariant forall q :: r <= q < |f| ==> f[q] == s.upToDate[worker][q]
      {
        if !f[r] {
          outRows := outRows + [base + r];
          f := f[r := true];
        }
      }
      upToDate[worker] := f;
      assert f == seq(storage.Length, _ => true);
      assert upToDate[..] == s.upToDate[worker := f];
    }

    /** The same for listed rows. */
    method UpdateListed(worker: nat, keys: seq<int>) returns (outRows: seq<int>)
      requires Valid() && worker < numWorkers && Within(keys, base, base + storage.Length)
      modifies upToDate
      ensures Valid() && outRows == OutdatedListed(old(upToDate[worker]), base, keys, |keys|)
      ensures upToDate[..] == old(upToDate[..])[worker := Marked(old(upToDate[worker]), base, keys, |keys|)]
    {
      outRows := [];
      ghost var s := Contents();
      ghost var flags := upToDate[worker];
      var f := upToDate[worker];
      for i := 0 to |keys|
        invariant upToDate[..] == s.upToDate
        invariant f == Marked(flags, base, keys, i) && outRows == OutdatedListed(flags, base, keys, i)
      {
        MarkedNext(flags, base, keys, i);
        if !f[keys[i] - base] {
          f := f[keys[i] - base := true];
          outRows := outRows + [keys[i]];
        }
      }
      upToDate[worker] := f;
      assert upToDate[..] == s.upToDate[worker := f];
    }

    /** Picks the rows to send for a get and marks them as sent. */
    method UpdateGetState(worker: int, keys: seq<int>) returns (outRows: seq<int>)
      requires Valid() && -1 <= worker < numWorkers && Routed(keys, base, storage.Length)
      modifies upToDate
      ensures Valid() && outRows == SentFor(old(Contents()), base, worker, keys)
      ensures Contents() == AfterAnyGet(old(Contents()), base, worker, keys)
      ensures worker == -1 ==> |outRows| == storage.Length && forall r :: 0 <= r < |outRows| ==> outRows[r] == base + r
      ensures worker == -1 ==> upToDate[..] == old(upToDate[..])
      ensures worker >= 0 ==> AnswersGet(old(upToDate[worker]), base, keys, outRows)
      ensures worker >= 0 ==> FlagsSet(old(upToDate[worker]), upToDate[worker], base, keys)
      ensures forall w :: 0 <= w < numWorkers && w != worker ==> upToDate[w] == old(upToDate[w])
    {
      if worker == -1 {
        return AllRows(base, storage.Length);
      }
      if IsWhole(keys) {
        WholeGetIsAnswered(upToDate[worker], base);
        outRows := UpdateWhole(worker);
      } else {
        ListedGetIsAnswered(upToDate[worker], base, keys);
        ListedFlagsAreSet(upToDate[worker], base, keys);
        outRows := UpdateListed(worker, keys);
      }
      if outRows == [] {
        outRows := [base];
      }
    }

    /** ok is false if a check fails; the flags have been cleared all the same. */
    method ProcessAdd(keys: seq<int>, values: seq<Row>, up: Updater<Row>) returns (ok: bool)
      requires Valid() && Routed(keys, base, storage.Length)
      modifies storage, upToDate
      ensures Valid() && ok == SizesMatch(storage.Length, keys, values)
      ensures keys == [-1] ==> ok == (|values| == storage.Length)
      ensures keys != [-1] ==> ok == (|values| == |keys| <= storage.Length)
      ensures !ok ==> storage[..] == old(storage[..])
      ensures ok && keys == [-1] ==>
                forall r :: 0 <= r < storage.Length ==> storage[r] == up(old(storage[r]), values[r])
      ensures ok && keys != [-1] ==> RowsUpdated(old(storage[..]), storage[..], base, keys, values, up)
      ensures forall w :: 0 <= w < numWorkers ==>
                if isSparse then FlagsCleared(old(upToDate[w]), upToDate[w], base, keys)
                else upToDate[w] == old(upToDate[w])
      ensures isSparse && ok ==> Contents() == AfterAdd(old(Contents()), base, keys, values, up)
      ensures isSparse && !ok ==> Contents() == Outdate(old(Contents()), base, keys)
      ensures !isSparse && ok ==>
                Contents() == old(Contents()).(rows := AfterAdd(old(Contents()), base, keys, values, up).rows)
      ensures !isSparse && !ok ==> Contents() == old(Contents())
    {
      ghost var s: seq<Row> := storage[..];
      if isSparse {
        UpdateAddState(keys);
      }
      ghost var flags: seq<seq<bool>> := upToDate[..];
      if !SizesMatch(storage.Length, keys, values) {
        return false;
      }
      if IsWhole(keys) {
        for r := 0 to storage.Length
          invariant upToDate[..] == flags
          invariant forall q :: 0 <= q < r ==> storage[q] == up(s[q], values[q])
          invariant forall q :: r <= q < storage.Length ==> storage[q] == s[q]
        {
          storage[r] := up(storage[r], values[r]);
        }
        assert storage[..] == AddAll(s, values, up);
      } else {
        for i := 0 to |keys|
          invariant upToDate[..] == flags
          invariant storage[..] == AddRows(s, base, keys, values, up, i)
        {
          var at := keys[i] - base;
          storage[at] := up(storage[at], values[i]);
        }
        AddRowsUpdates(s, base, keys, values, up);
      }
      return true;
    }

    method ProcessGet(worker: int, asked: seq<int>) returns (reply: Reply<Row>)
      requires Valid() && -1 <= worker < numWorkers && Routed(asked, base, storage.Length)
      modifies upToDate
      ensures Valid()
      ensures isSparse ==> reply == RowsOf(old(Contents()), base, SentFor(old(Contents()), base, worker, asked))
      ensures isSparse ==> Contents() == AfterAnyGet(old(Contents()), base, worker, asked)
      ensures storage[..] == old(storage[..])
      ensures isSparse && worker >= 0 ==> AnswersGet(old(upToDate[worker]), base, asked, reply.keys)
      ensures isSparse && worker >= 0 ==> FlagsSet(old(upToDate[worker]), upToDate[worker], base, asked)
      ensures reply.keys != [-1] ==> |reply.rows| == |reply.keys| && Within(reply.keys, base, base + storage.Length)
      ensures reply.keys != [-1] ==>
                forall j :: 0 <= j < |reply.keys| ==> reply.rows[j] == storage[reply.keys[j] - base]
      ensures !isSparse ==> Contents() == old(Contents())
      ensures !isSparse && IsWhole(asked) ==> reply == Reply(asked, Contents().rows)
      ensures !isSparse && !IsWhole(asked) ==> reply == RowsOf(Contents(), base, asked)
    {
      ghost var s := Contents();
      var keys := asked;
      if isSparse {
        keys := UpdateGetState(worker, asked);
      }
      if IsWhole(keys) {
        return Reply(keys, storage[..]);
      }
      var rows := ReadRows(keys);
      reply := Reply(keys, rows);
    }

    method ReadRows(keys: seq<int>) returns (rows: seq<Row>)
      requires Within(keys, base, base + storage.Length)
      ensures |rows| == |keys| && forall j :: 0 <= j < |keys| ==> rows[j] == storage[keys[j] - base]
    {
      rows := [];
      for i := 0 to |keys|
        invariant |rows| == i && forall j :: 0 <= j < i ==> rows[j] == storage[keys[j] - base]
      {
        rows := rows + [storage[keys[i] - base]];
      }
    }
  }
}
