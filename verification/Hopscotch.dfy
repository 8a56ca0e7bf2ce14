/** The hopscotch hash table, without growing: Insert reports when the table would have to grow. */
module Hopscotch {
  import opened Capacity
  import opened Options
  import opened HopscotchTable
  import opened HopscotchSteps

  datatype Outcome = Placed | MustGrow

  /** The number of slots that Insert looks at. */
  const SCAN := 8 * NEIGHBOURS

  /** Every free slot but e has an empty chain. */
  ghost predicate CompactBut<V>(t: seq<Bucket<V>>, e: nat)
  {
    forall s: nat :: s < |t| && !t[s].use && s != e ==> t[s].first == 0
  }

  /** The links are the same. */
  ghost predicate SameLinks<V>(t: seq<Bucket<V>>, g: seq<Bucket<V>>)
  {
    |t| == |g| && forall s :: 0 <= s < |t| ==> t[s].first == g[s].first && t[s].next == g[s].next
  }

  ghost predicate AllUsed<V>(t: seq<Bucket<V>>, lo: nat, hi: nat)
  {
    hi <= |t| && forall s :: lo <= s < hi ==> t[s].use
  }

  function HashFor(pow2: nat): Hash
    requires pow2 > 0
  {
    (key: nat) => key % pow2
  }

  /** A link of slot s as a slot number, -1 for none. */
  function Target(s: nat, link: nat): int
  {
    if link == 0 then -1 else s + link - 1
  }

  lemma FirstIsNearest<V>(t: seq<Bucket<V>>, home: Hash, h: nat)
    requires Valid(t, home) && h < |t|
    ensures if t[h].first == 0 then NoneFrom(t, home, h, 0) else Nearest(t, home, h, 0, h + t[h].first - 1)
  {
    assert ChainOk(t, home, h);
  }

  lemma NextIsNearest<V>(t: seq<Bucket<V>>, home: Hash, h: nat, s: nat)
    requires Valid(t, home) && On(t, home, h, s)
    ensures if t[s].next == 0 then NoneFrom(t, home, h, s + 1) else Nearest(t, home, h, s + 1, s + t[s].next - 1)
  {
    assert ChainOk(t, home, h);
    assert SlotOk(t, home, h, s);
  }

  class Hopscotch<V(0)> {
    const pow2Capacity: bv64
    const pow2: nat
    const buckets: array<Bucket<V>>
    var size: nat

    ghost function Hash(): Hash
      requires pow2 > 0
    {
      HashFor(pow2)
    }

    ghost predicate Sized()
    {
      pow2 > 0 && buckets.Length == pow2 + NEIGHBOURS
    }

    ghost predicate Ok()
      reads buckets
    {
      Sized() && Valid(buckets[..], Hash())
    }

    ghost function Contents(): map<nat, V>
      reads buckets
    {
      Model(buckets[..])
    }

    /** An empty table of at least the wanted size. Beyond 2^63 the capacity wraps to 0, and no key has a
        home in the table. */
    constructor (wanted: bv64)
      ensures IsRoundedUp(wanted, pow2Capacity) && pow2 == pow2Capacity as nat && fresh(buckets)
      ensures buckets.Length == pow2 + NEIGHBOURS && Contents() == map[] && size == 0
      ensures wanted <= MAX_POWER ==> Ok() && Compact(buckets[..]) && Dense(buckets[..], Hash())
      ensures wanted > MAX_POWER ==> pow2 == 0
    {
      var power := RoundUp(wanted);
      if wanted <= MAX_POWER {
        RoundedUpIsPositive(wanted, power);
      }
      var filler: V := *;
      var slots := new Bucket<V>[power as nat + NEIGHBOURS](_ => Bucket(0, 0, false, 0, filler));
      pow2Capacity, pow2, size := power, power as nat, 0;
      buckets := slots;
      new;
      EmptyModel(buckets[..], buckets.Length);
      if pow2 > 0 {
        EmptyIsValid(buckets[..], Hash());
      }
    }

    method Home(key: nat) returns (h: nat)
      requires Sized()
      ensures h == Hash()(key) < pow2
    {
      h := key % pow2;
    }

    method Find(home: nat, key: nat) returns (bucket: int)
      requires Ok() && home == Hash()(key) && home < pow2
      ensures -1 <= bucket && (bucket == -1 <==> key !in Contents())
      ensures bucket == -1 || (On(buckets[..], Hash(), home, bucket) && buckets[bucket].key == key)
    {
      ghost var t: seq<Bucket<V>> := buckets[..];
      FirstIsNearest(t, Hash(), home);
      bucket := Target(home, buckets[home].first);
      while bucket != -1
        invariant bucket == -1 || On(t, Hash(), home, bucket)
        invariant forall s: nat :: On(t, Hash(), home, s) && (bucket == -1 || s < bucket) ==> t[s].key != key
        decreases if bucket == -1 then 0 else |t| - bucket
      {
        if buckets[bucket].key == key {
          SlotInModel(t, |t|, bucket);
          return bucket;
        }
        NextIsNearest(t, Hash(), home, bucket);
        bucket := Target(bucket, buckets[bucket].next);
      }
      NotStored(t, Hash(), key);
    }

    /** The last element of a home before a slot. The links are those of the table g. */
    method Prev(home: nat, bucket: nat, ghost g: seq<Bucket<V>>) returns (prev: int)
      requires Sized() && home < buckets.Length && bucket <= buckets.Length
      requires SameLinks(buckets[..], g) && Valid(g, Hash())
      ensures IsPrev(g, Hash(), home, bucket, prev)
    {
      FirstIsNearest(g, Hash(), home);
      var move := Target(home, buckets[home].first);
      prev := -1;
      while move != -1 && move < bucket
        invariant -1 <= prev < bucket && (prev == -1 || On(g, Hash(), home, prev))
        invariant move == -1 || (prev < move && On(g, Hash(), home, move))
        invariant forall r: nat :: prev < r && (move == -1 || r < move) ==> !On(g, Hash(), home, r)
        decreases if move == -1 then 0 else |g| - move
      {
        prev := move;
        NextIsNearest(g, Hash(), home, move);
        move := Target(move, buckets[move].next);
      }
    }

    /** Moves the element in slot candidate to the free slot empty. */
    method MoveTo(candiHome: nat, candidate: nat, empty: nat) returns (ghost p: int)
      requires Ok() && candiHome < buckets.Length && candiHome <= candidate < empty < buckets.Length
      modifies buckets
      ensures IsPrev(old(buckets[..]), Hash(), candiHome, candidate, p)
      ensures buckets[..] == Hop(old(buckets[..]), candiHome, candidate, empty, p)
    {
      ghost var t: seq<Bucket<V>> := buckets[..];
      buckets[empty] := buckets[empty].(use := true, key := buckets[candidate].key, val := buckets[candidate].val);
      ghost var t1: seq<Bucket<V>> := buckets[..];
      assert t1 == t[empty := Bucket(t[empty].first, t[empty].next, true, t[candidate].key, t[candidate].val)];
      var diff := Byte(empty - candidate);
      var prev := Prev(candiHome, candidate, t);
      AddToLink(candiHome, prev, diff);
      ghost var t2: seq<Bucket<V>> := buckets[..];
      var next: int := buckets[candidate].next;
      assert next == t[candidate].next;
      buckets[empty] := buckets[empty].(next := Byte(next - if next == 0 then 0 else diff));
      assert buckets[..] == SetNext(t2, empty, Byte(next - if next == 0 then 0 else diff));
      buckets[candidate] := buckets[candidate].(use := false);
      p := prev;
    }

    /** Adds to the link of an element's predecessor, or of its home. */
    method AddToLink(home: nat, prev: int, diff: nat)
      requires Sized() && home < buckets.Length && -1 <= prev < buckets.Length
      modifies buckets
      ensures var t := old(buckets[..]); buckets[..] == Relink(t, home, prev, Byte(LinkOf(t, home, prev) + diff))
    {
      if prev == -1 {
        buckets[home] := buckets[home].(first := Byte(buckets[home].first + diff));
      } else {
        buckets[prev] := buckets[prev].(next := Byte(buckets[prev].next + diff));
      }
    }

    /** Brings a free slot into the neighbourhood of a home, by hops of other elements; -1 if it cannot. */
    method Displace(home: nat, empty: nat) returns (slot: int)
      requires Ok() && home + NEIGHBOURS <= empty < buckets.Length && !buckets[empty].use
      requires AllUsed(buckets[..], home, empty)
      modifies buckets
      ensures Ok() && Contents() == old(Contents())
      ensures slot == -1 || (home < slot < home + NEIGHBOURS && !buckets[slot].use && AllUsed(buckets[..], home, slot))
      ensures slot >= 0 && CompactBut(old(buckets[..]), empty) ==> CompactBut(buckets[..], slot)
      ensures SameChain(old(buckets[..]), buckets[..], Hash(), home)
      ensures slot >= 0 && Dense(old(buckets[..]), Hash()) ==> DenseBut(buckets[..], Hash(), slot)
      ensures slot == -1 ==> exists e: nat :: home + NEIGHBOURS <= e && NoHopLeft(buckets[..], Hash(), home, e)
      ensures NoHopLeft(old(buckets[..]), Hash(), home, empty) ==> slot == -1 && buckets[..] == old(buckets[..])
    {
      ghost var t0: seq<Bucket<V>> := buckets[..];
      DisplaceStarts(t0, Hash(), home, empty);
      var free := empty;
      var start, within, candidate := free - NEIGHBOURS, home + NEIGHBOURS, free - 1;
      while candidate > home
        invariant within <= free < buckets.Length && start == free - NEIGHBOURS
        invariant Displacing(t0, buckets[..], Hash(), home, empty, candidate, free)
        invariant NoHopLeft(t0, Hash(), home, empty) ==> buckets[..] == t0 && free == empty
        decreases candidate
      {
        ghost var t: seq<Bucket<V>> := buckets[..];
        var candiHome := Home(buckets[candidate].key);
        HomeInReach(t, Hash(), candidate);
        if candiHome > start {
          ghost var p := MoveTo(candiHome, candidate, free);
          DisplaceHops(t0, t, buckets[..], Hash(), home, empty, candidate, free, p);
          free := candidate;
          start := free - NEIGHBOURS;
          if free < within {
            return free;
          }
        }
        candidate := candidate - 1;
      }
      assert NoHopLeft(buckets[..], Hash(), home, free);
      return -1;
    }

    /** Writes the element into a free slot and links it in. */
    method PlaceAt(home: nat, slot: nat, key: nat, val: V) returns (ghost p: int)
      requires Ok() && home < buckets.Length && home <= slot < buckets.Length
      modifies buckets
      ensures IsPrev(old(buckets[..]), Hash(), home, slot, p)
      ensures buckets[..] == Place(old(buckets[..]), home, slot, p, key, val)
    {
      ghost var t: seq<Bucket<V>> := buckets[..];
      buckets[slot] := buckets[slot].(key := key, val := val, use := true);
      ghost var t1: seq<Bucket<V>> := buckets[..];
      assert t1 == t[slot := Bucket(t[slot].first, t[slot].next, true, key, val)];
      var prev := Prev(home, slot, t);
      if prev == -1 {
        buckets[home] := buckets[home].(first := Byte(slot - home + 1));
        buckets[slot] := buckets[slot].(next := 0);
      } else {
        var next := Target(prev, buckets[prev].next);
        buckets[prev] := buckets[prev].(next := Byte(slot - prev + 1));
        buckets[slot] := buckets[slot].(next := if next == -1 then 0 else Byte(next - slot + 1));
      }
      p := prev;
    }

    /** slot is where the element is placed. t is the table at that time, after any hops, and p the element
        before it. */
    method Insert(home: nat, key: nat, val: V)
      returns (outcome: Outcome, ghost t: seq<Bucket<V>>, ghost slot: nat, ghost p: int)
      requires Ok() && home == Hash()(key) < pow2 && key !in Contents()
      modifies buckets
      ensures outcome == MustGrow ==> Ok() && Contents() == old(Contents())
      ensures outcome == MustGrow ==> AllUsed(old(buckets[..]), home, home + NEIGHBOURS)
      ensures outcome == Placed ==> IsPlaced(old(buckets[..]), t, buckets[..], Hash(), home, slot, p, key, val)
      ensures outcome == Placed ==> Contents() == old(Contents())[key := val]
      ensures outcome == Placed ==> (Ok() <==> !StartsBehind(old(buckets[..]), home, slot))
      ensures outcome == Placed && Compact(old(buckets[..])) ==> Compact(buckets[..])
      ensures outcome == Placed && Dense(old(buckets[..]), Hash()) ==> Dense(buckets[..], Hash())
      ensures ScanIsFull(old(buckets[..]), home) ==> outcome == MustGrow && buckets[..] == old(buckets[..])
      ensures forall e: nat :: e < home + NEIGHBOURS && FirstFree(old(buckets[..]), home, e) ==>
                outcome == Placed && slot == e && t == old(buckets[..])
      ensures outcome == MustGrow ==>
                || ScanIsFull(old(buckets[..]), home)
                || exists e: nat :: NoHopLeft(buckets[..], Hash(), home, e)
      ensures forall e: nat :: home + NEIGHBOURS <= e && NoHopLeft(old(buckets[..]), Hash(), home, e) ==>
                outcome == MustGrow
    {
      ghost var t0: seq<Bucket<V>> := buckets[..];
      t, slot, p := buckets[..], home, -1;
      var move := home;
      var end := if home + SCAN < buckets.Length then home + SCAN else buckets.Length;
      while move != end && buckets[move].use
        invariant home <= move <= end && AllUsed(buckets[..], home, move)
      {
        move := move + 1;
      }
      if move == end {
        return MustGrow, t, slot, p;
      }
      DenseHasNoHole(t0, Hash(), move);
      if move - home >= NEIGHBOURS {
        var found := Displace(home, move);
        if found == -1 {
          return MustGrow, t, slot, p;
        }
        move := found;
      }
      t, slot := buckets[..], move;
      p := PlaceAt(home, move, key, val);
      InsertKeeps(t0, t, buckets[..], Hash(), home, slot, p, key, val);
      outcome := Placed;
    }

    method Get(key: nat) returns (val: Option<V>)
      requires Ok()
      ensures val == if key in Contents() then Some(Contents()[key]) else None
    {
      var home := Home(key);
      var bucket := Find(home, key);
      if bucket == -1 {
        return None;
      }
      SlotInModel(buckets[..], |buckets[..]|, bucket);
      return Some(buckets[bucket].val);
    }

    /** Inserts or overwrites. t, slot and p are those of the insertion, which is wrong exactly if the
        chain of the key's home starts behind the slot. */
    method Set(key: nat, val: V) returns (outcome: Outcome, ghost t: seq<Bucket<V>>, ghost slot: nat, ghost p: int)
      requires Ok() && size == |Contents()|
      modifies this, buckets
      ensures key in old(Contents()) ==> outcome == Placed && Ok()
      ensures outcome == Placed ==> Contents() == old(Contents())[key := val] && size == |Contents()|
      ensures outcome == MustGrow ==> Ok() && Contents() == old(Contents()) && size == |Contents()| + 1
      ensures outcome == Placed && key !in old(Contents()) ==>
                IsPlaced(old(buckets[..]), t, buckets[..], Hash(), Hash()(key), slot, p, key, val)
      ensures outcome == Placed && key !in old(Contents()) ==>
                (Ok() <==> !StartsBehind(old(buckets[..]), Hash()(key), slot))
      ensures outcome == Placed && Compact(old(buckets[..])) ==> Compact(buckets[..])
      ensures outcome == Placed && Dense(old(buckets[..]), Hash()) ==> Dense(buckets[..], Hash())
      ensures key !in old(Contents()) && ScanIsFull(old(buckets[..]), Hash()(key)) ==> outcome == MustGrow
      ensures key !in old(Contents()) ==>
                forall e: nat :: e < Hash()(key) + NEIGHBOURS && FirstFree(old(buckets[..]), Hash()(key), e) ==>
                  outcome == Placed && slot == e && t == old(buckets[..])
      ensures outcome == MustGrow ==>
                || ScanIsFull(old(buckets[..]), Hash()(key))
                || exists e: nat :: NoHopLeft(buckets[..], Hash(), Hash()(key), e)
    {
      var home := Home(key);
      var bucket := Find(home, key);
      if bucket != -1 {
        t, slot, p := buckets[..], home, -1;
        buckets[bucket] := buckets[bucket].(val := val);
        Overwritten(t, buckets[..], Hash(), bucket, val);
        return Placed, t, slot, p;
      }
      size := size + 1;
      outcome, t, slot, p := Insert(home, key, val);
    }

    /** Takes the element in slot bucket out of the chain of its home. */
    method UnlinkAt(home: nat, bucket: nat) returns (ghost p: int)
      requires Ok() && home < buckets.Length && On(buckets[..], Hash(), home, bucket)
      modifies buckets
      ensures CanUnlink(old(buckets[..]), Hash(), home, bucket, p)
      ensures buckets[..] == Unlink(old(buckets[..]), home, bucket, p)
    {
      ghost var t: seq<Bucket<V>> := buckets[..];
      var prev := Prev(home, bucket, t);
      var next := Target(bucket, buckets[bucket].next);
      if prev == -1 {
        buckets[home] := buckets[home].(first := if next == -1 then 0 else Byte(next - home + 1));
      } else {
        buckets[prev] := buckets[prev].(next := if next == -1 then 0 else Byte(next - prev + 1));
      }
      buckets[bucket] := buckets[bucket].(use := false);
      p := prev;
    }

    /** The last element of a chain whose home slot is free, and the bucket that links to it. */
    method FindLast(bucket: nat) returns (move: nat, prev: nat, ghost p: int)
      requires Ok() && bucket < buckets.Length && !buckets[bucket].use && buckets[bucket].first != 0
      ensures CanPull(buckets[..], Hash(), bucket, move, p)
      ensures prev == if p == -1 then bucket else p
    {
      ghost var t: seq<Bucket<V>> := buckets[..];
      FirstIsNearest(t, Hash(), bucket);
      move := bucket + buckets[bucket].first - 1;
      HomeInReach(t, Hash(), move);
      prev := bucket;
      p := -1;
      while buckets[move].next != 0
        invariant On(t, Hash(), bucket, move) && bucket < move && IsPrev(t, Hash(), bucket, move, p)
        invariant (p == -1 && prev == bucket) || (p == prev && bucket < p)
        decreases |t| - move
      {
        NextIsNearest(t, Hash(), bucket, move);
        prev, p := move, move;
        move := move + buckets[move].next - 1;
      }
    }

    /** Fills the free slot bucket with the last element of its own chain and frees that one's slot. */
    method CompactOnce(bucket: nat) returns (move: nat)
      requires Ok() && bucket < buckets.Length && !buckets[bucket].use && buckets[bucket].first != 0
      modifies buckets
      ensures Ok() && Contents() == old(Contents())
      ensures bucket < move < buckets.Length && !buckets[move].use
      ensures CompactBut(old(buckets[..]), bucket) ==> CompactBut(buckets[..], move)
    {
      ghost var t: seq<Bucket<V>> := buckets[..];
      var prev: nat;
      ghost var p: int;
      move, prev, p := FindLast(bucket);
      TakeLast(bucket, move, prev);
      PullKeeps(t, buckets[..], Hash(), bucket, move, p);
      PullCompacts(t, buckets[..], bucket, move, prev);
    }

    method TakeLast(bucket: nat, move: nat, prev: nat)
      requires bucket < move < buckets.Length && prev < buckets.Length
      modifies buckets
      ensures buckets[..] == Pull(old(buckets[..]), bucket, move, prev)
    {
      buckets[bucket] := buckets[bucket].(key := buckets[move].key, val := buckets[move].val, use := true);
      buckets[bucket] := buckets[bucket].(next := buckets[bucket].first);
      buckets[bucket] := buckets[bucket].(first := 1);
      buckets[prev] := buckets[prev].(next := 0);
      buckets[move] := buckets[move].(use := false);
    }

    /** Compacts until the freed slot has an empty chain. */
    method CompactFrom(freed: nat)
      requires Ok() && freed < buckets.Length && !buckets[freed].use
      modifies buckets
      ensures Ok() && Contents() == old(Contents())
      ensures CompactBut(old(buckets[..]), freed) ==> Compact(buckets[..])
    {
      ghost var m, t := Contents(), buckets[..];
      var bucket := freed;
      while buckets[bucket].first != 0
        invariant Ok() && Contents() == m && bucket < buckets.Length && !buckets[bucket].use
        invariant CompactBut(t, freed) ==> CompactBut(buckets[..], bucket)
        decreases buckets.Length - bucket
      {
        bucket := CompactOnce(bucket);
      }
    }

    /** Deletes exactly the given key. */
    method Remove(key: nat)
      requires Ok() && size == |Contents()|
      modifies this, buckets
      ensures Ok() && Contents() == old(Contents()) - {key} && size == |Contents()|
      ensures Compact(old(buckets[..])) ==> Compact(buckets[..])
    {
      ghost var t: seq<Bucket<V>> := buckets[..];
      var home := Home(key);
      var bucket := Find(home, key);
      WithoutKey(Model(t), key);
      if bucket != -1 {
        ghost var p := UnlinkAt(home, bucket);
        UnlinkKeeps(t, buckets[..], Hash(), home, bucket, p);
        UnlinkCompacts(t, buckets[..], Hash(), home, bucket, p);
        size := size - 1;
        CompactFrom(bucket);
      }
    }
  }

  lemma WithoutKey<V>(m: map<nat, V>, key: nat)
    ensures key in m ==> |m - {key}| == |m| - 1
    ensures key !in m ==> m - {key} == m
  {
    assert (m - {key}).Keys == m.Keys - {key};
    assert |m.Keys| == |m| && |(m - {key}).Keys| == |m - {key}|;
  }

  lemma EmptyIsValid<V>(t: seq<Bucket<V>>, home: Hash)
    requires forall s :: 0 <= s < |t| ==> !t[s].use && t[s].first == 0
    ensures Valid(t, home) && Compact(t) && Dense(t, home) && Model(t) == map[]
  {
    EmptyModel(t, |t|);
    forall h: nat | h < |t|
      ensures ChainOk(t, home, h)
    {
    }
  }

  lemma {:induction false} EmptyModel<V>(t: seq<Bucket<V>>, i: nat)
    requires i <= |t| && forall s :: 0 <= s < |t| ==> !t[s].use
    ensures ModelFirst(t, i) == map[]
  {
    if i > 0 {
      EmptyModel(t, i - 1);
    }
  }

  lemma NotStored<V>(t: seq<Bucket<V>>, home: Hash, key: nat)
    requires forall s: nat :: On(t, home, home(key), s) ==> t[s].key != key
    ensures key !in Model(t)
  {
    if key in Model(t) {
      var s := SlotOf(t, |t|, key);
      assert On(t, home, home(key), s);
    }
  }

  /** Displace's search: every slot from the home to the free one is in use, and what lies between the
      candidate and the free slot cannot reach it. */
  ghost predicate Searching<V>(t: seq<Bucket<V>>, home: Hash, m: map<nat, V>, h: nat, cand: int, e: nat)
  {
    && Valid(t, home) && Model(t) == m
    && h <= cand < e < |t| && !t[e].use && AllUsed(t, h, e)
    && forall s: nat :: cand < s < e ==> home(t[s].key) <= e - NEIGHBOURS
  }

  /** e is the first free slot from the home h on, and no element between them can hop there. */
  ghost predicate NoHopLeft<V>(t: seq<Bucket<V>>, home: Hash, h: nat, e: nat)
  {
    FirstFree(t, h, e) && forall s: nat :: h < s < e ==> home(t[s].key) + NEIGHBOURS <= e
  }

  ghost predicate FirstFree<V>(t: seq<Bucket<V>>, h: nat, e: nat)
  {
    h <= e < |t| && !t[e].use && AllUsed(t, h, e)
  }

  /** None of the 256 slots from h on, or up to the end of the table, is free. */
  ghost predicate ScanIsFull<V>(t: seq<Bucket<V>>, h: nat)
  {
    AllUsed(t, h, if h + 256 < |t| then h + 256 else |t|)
  }

  /** How the search has changed the table t0 so far. */
  ghost predicate Displacing<V>(t0: seq<Bucket<V>>, t: seq<Bucket<V>>, home: Hash, h: nat, empty: nat,
                                cand: int, e: nat)
  {
    && Searching(t, home, Model(t0), h, cand, e) && SameChain(t0, t, home, h)
    && (CompactBut(t0, empty) ==> CompactBut(t, e))
    && (Dense(t0, home) ==> DenseBut(t, home, e))
  }

  lemma DisplaceStarts<V>(t: seq<Bucket<V>>, home: Hash, h: nat, e: nat)
    requires Valid(t, home) && h < e < |t| && !t[e].use && AllUsed(t, h, e)
    ensures Displacing(t, t, home, h, e, e - 1, e)
  {
    DenseHasNoHole(t, home, e);
  }

  lemma DenseHasNoHole<V>(t: seq<Bucket<V>>, home: Hash, e: nat)
    ensures Dense(t, home) ==> DenseBut(t, home, e)
  {
    if Dense(t, home) {
      forall s: nat | s < |t|
        ensures DenseAt(t, home, e, s)
      {
        assert DenseAt(t, home, -1, s);
      }
    }
  }

  lemma DisplaceHops<V>(t0: seq<Bucket<V>>, t: seq<Bucket<V>>, t': seq<Bucket<V>>, home: Hash, h: nat, empty: nat,
                        c: nat, e: nat, p: int)
    requires Displacing(t0, t, home, h, empty, c, e) && h + NEIGHBOURS <= e && h < c
    requires home(t[c].key) > e - NEIGHBOURS && home(t[c].key) < |t| && IsPrev(t, home, home(t[c].key), c, p)
    requires t' == Hop(t, home(t[c].key), c, e, p)
    ensures Displacing(t0, t', home, h, empty, c - 1, c)
  {
    SearchHops(t, t', home, Model(t0), h, c, e, p);
  }

  lemma HomeInReach<V>(t: seq<Bucket<V>>, home: Hash, s: nat)
    requires Valid(t, home) && s < |t| && t[s].use
    ensures home(t[s].key) <= s < home(t[s].key) + NEIGHBOURS
  {
  }

  lemma SearchHops<V>(t: seq<Bucket<V>>, t': seq<Bucket<V>>, home: Hash, m: map<nat, V>, h: nat, c: nat, e: nat, p: int)
    requires Searching(t, home, m, h, c, e) && home(t[c].key) > e - NEIGHBOURS && h < c
    requires IsPrev(t, home, home(t[c].key), c, p) && home(t[c].key) < |t|
    requires t' == Hop(t, home(t[c].key), c, e, p)
    ensures Valid(t', home) && Model(t') == m && !t'[c].use && AllUsed(t', h, c)
    ensures CompactBut(t, e) ==> CompactBut(t', c)
    ensures h + NEIGHBOURS <= e ==> SameChain(t, t', home, h)
    ensures DenseBut(t, home, e) ==> DenseBut(t', home, c)
  {
    var ch := home(t[c].key);
    HomeInReach(t, home, c);
    assert On(t, home, ch, c);
    assert p >= 0 ==> On(t, home, ch, p);
    assert ChainOk(t, home, ch);
    HopKeeps(t, t', home, ch, c, e, p);
    HopLinks(t, t', home, ch, c, e, p);
    if DenseBut(t, home, e) {
      HopIsDense(t, t', home, h, c, e);
    }
    if CompactBut(t, e) {
      HopCompacts(t, t', home, ch, c, e, p);
    }
    if h + NEIGHBOURS <= e {
      HopSparesOthers(t, t', home, ch, c, e, p, h);
    }
  }

  /** A hop leaves the chains of other homes as they are. */
  lemma HopSparesOthers<V>(t: seq<Bucket<V>>, t': seq<Bucket<V>>, home: Hash, h: nat, c: nat, e: nat, p: int, k: nat)
    requires CanHop(t, home, h, c, e, p) && t' == Hop(t, h, c, e, p) && k < |t| && k != h
    ensures SameChain(t, t', home, k)
  {
    HopLinks(t, t', home, h, c, e, p);
    assert LinksHop(t, t', h, c, e, p, k);
    forall s: nat
      ensures On(t', home, k, s) == On(t, home, k, s)
    {
      HopOn(t, t', home, h, c, e, p, k, s);
    }
  }

  lemma HopCompacts<V>(t: seq<Bucket<V>>, t': seq<Bucket<V>>, home: Hash, h: nat, c: nat, e: nat, p: int)
    requires CanHop(t, home, h, c, e, p) && t' == Hop(t, h, c, e, p) && Moved(t, t', c, e)
    requires forall s: nat :: s < |t| ==> LinksHop(t, t', h, c, e, p, s)
    requires CompactBut(t, e)
    ensures CompactBut(t', c)
  {
    FirstIsNearest(t, home, h);
    forall s: nat | s < |t'| && !t'[s].use && s != c
      ensures t'[s].first == 0
    {
      assert LinksHop(t, t', h, c, e, p, s);
    }
  }

  /** The same slots hold the elements of home h, and the first one is found in the same place. */
  ghost predicate SameChain<V>(t: seq<Bucket<V>>, t': seq<Bucket<V>>, home: Hash, h: nat)
  {
    && h < |t| == |t'| && t'[h].first == t[h].first
    && forall s: nat :: On(t', home, h, s) == On(t, home, h, s)
  }

  /** The chain of home h is not empty and starts behind slot e. */
  predicate StartsBehind<V>(t: seq<Bucket<V>>, h: nat, e: nat)
    requires h < |t|
  {
    t[h].first != 0 && e < h + t[h].first - 1
  }

  /** The case in which the chain is cut off, on the table before any hops. */
  lemma CutsOffBefore<V>(t0: seq<Bucket<V>>, t: seq<Bucket<V>>, home: Hash, h: nat, e: nat, p: int, key: nat)
    requires CanPlace(t, home, h, e, p, key) && SameChain(t0, t, home, h)
    ensures CutsOff(t, h, p) <==> StartsBehind(t0, h, e)
  {
    FirstIsNearest(t, home, h);
  }

  lemma InsertKeeps<V>(t0: seq<Bucket<V>>, t: seq<Bucket<V>>, t': seq<Bucket<V>>, home: Hash, h: nat, e: nat, p: int,
                       key: nat, val: V)
    requires CanPlace(t, home, h, e, p, key) && SameChain(t0, t, home, h) && AllUsed(t, h, e)
    requires p < |t| && t' == Place(t, h, e, p, key, val)
    ensures Model(t') == Model(t)[key := val] && (Valid(t', home) <==> !StartsBehind(t0, h, e))
    ensures CompactBut(t, e) ==> Compact(t')
    ensures DenseBut(t, home, e) ==> Dense(t', home)
  {
    PlaceKeeps(t, t', home, h, e, p, key, val);
    PlaceCompacts(t, t', home, h, e, p, key, val);
    CutsOffBefore(t0, t, home, h, e, p, key);
    PlaceIsDense(t, t', home, h, e, p, key, val);
  }

  // ---- tables built by insertions only ----

  /** Slot s holds an element, and no slot between its home and s is free, unless it is e. */
  ghost predicate DenseAt<V>(t: seq<Bucket<V>>, home: Hash, e: int, s: nat)
    requires s < |t|
  {
    t[s].use ==> forall r :: home(t[s].key) <= r < s && r != e ==> t[r].use
  }

  /** All slots between an element's home and the element are in use, but for e. */
  ghost predicate DenseBut<V>(t: seq<Bucket<V>>, home: Hash, e: int)
  {
    forall s: nat :: s < |t| ==> DenseAt(t, home, e, s)
  }

  ghost predicate Dense<V>(t: seq<Bucket<V>>, home: Hash)
  {
    DenseBut(t, home, -1)
  }

  lemma PlaceIsDense<V>(t: seq<Bucket<V>>, t': seq<Bucket<V>>, home: Hash, h: nat, e: nat, p: int, key: nat, val: V)
    requires CanPlace(t, home, h, e, p, key) && h < |t| && p < |t| && t' == Place(t, h, e, p, key, val)
    requires AllUsed(t, h, e)
    ensures DenseBut(t, home, e) ==> Dense(t', home)
  {
    if DenseBut(t, home, e) {
      forall s: nat | s < |t'|
        ensures DenseAt(t', home, -1, s)
      {
        assert DenseAt(t, home, e, s);
      }
    }
  }

  lemma HopIsDense<V>(t: seq<Bucket<V>>, t': seq<Bucket<V>>, home: Hash, h: nat, c: nat, e: nat)
    requires Moved(t, t', c, e) && c < e && AllUsed(t, h, e) && h <= c
    requires DenseBut(t, home, e)
    ensures DenseBut(t', home, c)
  {
    forall s: nat | s < |t'|
      ensures DenseAt(t', home, c, s)
    {
      assert DenseAt(t, home, e, s) && DenseAt(t, home, e, c);
    }
  }

  /** In a table built by insertions only, the first free slot is never before the chain. */
  lemma DenseIsSafe<V>(t: seq<Bucket<V>>, home: Hash, h: nat, e: nat)
    requires Valid(t, home) && Dense(t, home) && h <= e < |t| && !t[e].use
    ensures !StartsBehind(t, h, e)
  {
    FirstIsNearest(t, home, h);
    if t[h].first != 0 {
      assert DenseAt(t, home, -1, h + t[h].first - 1);
    }
  }

  /** How the table t0 has become t by hops and then t' by placing the new element. */
  ghost predicate IsPlaced<V>(t0: seq<Bucket<V>>, t: seq<Bucket<V>>, t': seq<Bucket<V>>, home: Hash,
                              h: nat, e: nat, p: int, key: nat, val: V)
  {
    && Distinct(t0) && CanPlace(t, home, h, e, p, key) && Model(t) == Model(t0)
    && (t == t0 || AllUsed(t0, h, h + NEIGHBOURS)) && AllUsed(t, h, e) && SameChain(t0, t, home, h)
    && h < |t| && p < |t| && t' == Place(t, h, e, p, key, val)
  }

  lemma PlaceCompacts<V>(t: seq<Bucket<V>>, t': seq<Bucket<V>>, home: Hash, h: nat, e: nat, p: int, key: nat, val: V)
    requires CanPlace(t, home, h, e, p, key) && h < |t| && p < |t| && t' == Place(t, h, e, p, key, val)
    requires AllUsed(t, h, e)
    ensures CompactBut(t, e) ==> Compact(t')
  {
  }

  lemma UnlinkCompacts<V>(t: seq<Bucket<V>>, t': seq<Bucket<V>>, home: Hash, h: nat, b: nat, p: int)
    requires CanUnlink(t, home, h, b, p) && h < |t| && t' == Unlink(t, h, b, p)
    ensures Compact(t) ==> CompactBut(t', b)
  {
    FirstIsNearest(t, home, h);
  }

  lemma Overwritten<V>(t: seq<Bucket<V>>, t': seq<Bucket<V>>, home: Hash, b: nat, val: V)
    requires Valid(t, home) && b < |t| && t[b].use && t' == t[b := t[b].(val := val)]
    ensures Valid(t', home) && Model(t') == Model(t)[t[b].key := val]
    ensures t[b].key in Model(t) && (Compact(t) ==> Compact(t')) && (Dense(t, home) ==> Dense(t', home))
  {
    if Dense(t, home) {
      forall s: nat | s < |t'|
        ensures DenseAt(t', home, -1, s)
      {
        assert DenseAt(t, home, -1, s);
      }
    }
    forall h: nat | h < |t|
      ensures ChainOk(t', home, h)
    {
      assert ChainOk(t, home, h);
      ChainStays(t, t', home, h);
    }
    SlotInModel(t, |t|, b);
    forall k: nat | k in Model(t)
      ensures k in Model(t') && Model(t')[k] == Model(t)[t[b].key := val][k]
    {
      var s := SlotOf(t, |t|, k);
      SlotInModel(t, |t|, s);
      SlotInModel(t', |t'|, s);
    }
    forall k: nat | k in Model(t')
      ensures k in Model(t)
    {
      var s := SlotOf(t', |t'|, k);
      SlotInModel(t, |t|, s);
    }
  }

  lemma PullCompacts<V>(t: seq<Bucket<V>>, t': seq<Bucket<V>>, b: nat, m: nat, q: nat)
    requires b < m < |t| && q < |t| && t' == Pull(t, b, m, q)
    ensures CompactBut(t, b) ==> CompactBut(t', m)
  {
  }

  // ---- when Insert goes wrong ----

  /** In a compact table nothing is cut off if the home slot is free or holds one of its own elements. */
  lemma OwnHomeIsSafe<V>(t: seq<Bucket<V>>, home: Hash, h: nat, e: nat, p: int, key: nat)
    requires CanPlace(t, home, h, e, p, key) && CompactBut(t, e) && AllUsed(t, h, e)
    requires e == h || home(t[h].key) == h
    ensures h < |t| && (t[e].first == 0 ==> !CutsOff(t, h, p))
  {
    if e != h {
      assert On(t, home, h, h);
    }
  }

  const NOTHING := Bucket(0, 0, false, 0, 0)

  /** A table of 256 homes with only the first four slots other than nothing. */
  function FirstFour(a: Bucket<int>, b: Bucket<int>, c: Bucket<int>, d: Bucket<int>): (t: seq<Bucket<int>>)
    ensures |t| == 256 + NEIGHBOURS
  {
    seq(256 + NEIGHBOURS, s requires 0 <= s < 256 + NEIGHBOURS =>
      if s == 0 then a else if s == 1 then b else if s == 2 then c else if s == 3 then d else NOTHING)
  }

  /** Keys 0 and 256 (home 0) in slots 0 and 1, key 1 (home 1) in slot 3, all other slots free. */
  function FourLessOne(): (t: seq<Bucket<int>>)
    ensures |t| == 256 + NEIGHBOURS
  {
    FirstFour(Bucket(1, 2, true, 0, 0), Bucket(3, 0, true, 256, 0),
              Bucket(0, 0, false, 512, 0), Bucket(0, 0, true, 1, 0))
  }

  /** Insert puts the new key into the first free slot, p being the element before it. */
  ghost predicate Inserts(t: seq<Bucket<int>>, t': seq<Bucket<int>>, e: nat, p: int, key: nat)
  {
    var h := HashFor(256)(key);
    && h <= e < |t| && e < h + NEIGHBOURS && !t[e].use && AllUsed(t, h, e)
    && (forall s :: 0 <= s < |t| && t[s].use ==> t[s].key != key)
    && IsPrev(t, HashFor(256), h, e, p) && t' == Place(t, h, e, p, key, 0)
  }

  /** The table after inserting 0, 256, 512 and 1, in this order. */
  ghost function AfterFour(): seq<Bucket<int>>
  {
    FirstFour(Bucket(1, 2, true, 0, 0), Bucket(3, 2, true, 256, 0),
              Bucket(0, 0, true, 512, 0), Bucket(0, 0, true, 1, 0))
  }

  /** It is filled by inserting 0, 256, 512 and 1 and removing 512: unlinking leaves slot 2 free, and
      with no chain of its own there is nothing to compact. */
  lemma FourLessOneIsReached()
    ensures var t0 := FirstFour(NOTHING, NOTHING, NOTHING, NOTHING);
            var t1 := FirstFour(Bucket(1, 0, true, 0, 0), NOTHING, NOTHING, NOTHING);
            var t2 := FirstFour(Bucket(1, 2, true, 0, 0), Bucket(0, 0, true, 256, 0), NOTHING, NOTHING);
            var t3 := FirstFour(Bucket(1, 2, true, 0, 0), Bucket(0, 2, true, 256, 0),
                                Bucket(0, 0, true, 512, 0), NOTHING);
            && Inserts(t0, t1, 0, -1, 0) && Inserts(t1, t2, 1, 0, 256) && Inserts(t2, t3, 2, 1, 512)
            && Inserts(t3, AfterFour(), 3, -1, 1)
    ensures IsPrev(AfterFour(), HashFor(256), 0, 2, 1)
    ensures Unlink(AfterFour(), 0, 2, 1) == FourLessOne() && FourLessOne()[2].first == 0
  {
    var home := HashFor(256);
    assert home(0) == 0 && home(256) == 0 && home(512) == 0 && home(1) == 1;
  }

  lemma FourLessOneIsValid()
    ensures Valid(FourLessOne(), HashFor(256)) && Compact(FourLessOne())
    ensures 257 !in Model(FourLessOne())
  {
    var t, home := FourLessOne(), HashFor(256);
    assert home(0) == 0 && home(256) == 0 && home(1) == 1 && home(257) == 1;
    forall h: nat | h < |t|
      ensures ChainOk(t, home, h)
    {
      FourLessOneChain(h);
    }
    NotStored(t, home, 257);
  }

  lemma FourLessOneChain(h: nat)
    requires h < |FourLessOne()|
    ensures ChainOk(FourLessOne(), HashFor(256), h)
  {
    var t, home := FourLessOne(), HashFor(256);
    assert home(0) == 0 && home(256) == 0 && home(1) == 1;
    forall s: nat
      ensures On(t, home, h, s) <==> (h == 0 && s < 2) || (h == 1 && s == 3)
    {
    }
  }

  lemma SlotTwoIsNext()
    ensures CanPlace(FourLessOne(), HashFor(256), 1, 2, -1, 257) && AllUsed(FourLessOne(), 1, 2)
  {
    FourLessOneIsValid();
    assert HashFor(256)(0) == 0 && HashFor(256)(256) == 0 && HashFor(256)(257) == 1;
  }

  /** Inserting key 257 (home 1) there puts it in slot 2 and loses key 1: the chain of home 1 then ends
      after slot 2, although slot 3 still holds key 1. */
  lemma InsertLosesAKey(val: int)
    ensures var t := FourLessOne();
            && CanPlace(t, HashFor(256), 1, 2, -1, 257) && AllUsed(t, 1, 2) && CutsOff(t, 1, -1)
            && var t' := Place(t, 1, 2, -1, 257, val);
               && Target(1, t'[1].first) == 2 && Target(2, t'[2].next) == -1
               && t'[2].key == 257 && t'[3].use && t'[3].key == 1 && !Valid(t', HashFor(256))
  {
    var t, home := FourLessOne(), HashFor(256);
    SlotTwoIsNext();
    PlaceKeeps(t, Place(t, 1, 2, -1, 257, val), home, 1, 2, -1, 257, val);
  }

  function KeyOfHomeOne(i: nat): (key: nat)
    ensures key % 256 == 1
  {
    256 * i + 1
  }

  /** Keys 0 and 256 of home 0, key 2 of home 2, and then keys of home 1. */
  function CrowdKey(s: nat): nat
  {
    if s == 0 then 0 else if s == 1 then 256 else if s == 2 then 2 else KeyOfHomeOne(s - 3)
  }

  /** The first k of these keys in the first k slots. */
  function CrowdedBy(k: nat): (t: seq<Bucket<int>>)
    requires k <= 33
    ensures |t| == 256 + NEIGHBOURS
  {
    seq(256 + NEIGHBOURS, s requires 0 <= s < 256 + NEIGHBOURS =>
      if s >= k then NOTHING
      else Bucket(if s == 1 then (if k > 3 then 3 else 0) else if s < 3 then 1 else 0,
                  if (s == 0 || s >= 3) && s + 1 < k then 2 else 0, true, CrowdKey(s), 0))
  }

  function Crowded(): (t: seq<Bucket<int>>)
    ensures |t| == 256 + NEIGHBOURS
  {
    CrowdedBy(33)
  }

  /** One insertion after the other fills the first free slot from the home on. */
  lemma CrowdedIsReached(k: nat)
    requires k < 33
    ensures CrowdedBy(0) == FirstFour(NOTHING, NOTHING, NOTHING, NOTHING)
    ensures Inserts(CrowdedBy(k), CrowdedBy(k + 1), k, if k == 1 then 0 else if k > 3 then k - 1 else -1, CrowdKey(k))
  {
    var t, home := CrowdedBy(k), HashFor(256);
    assert home(0) == 0 && home(256) == 0 && home(2) == 2;
    forall s: nat | s < k
      ensures home(t[s].key) == (if s < 2 then 0 else if s == 2 then 2 else 1) && t[s].key != CrowdKey(k)
    {
    }
  }

  lemma CrowdedOn(h: nat, s: nat)
    ensures On(Crowded(), HashFor(256), h, s)
       <==> (h == 0 && s < 2) || (h == 2 && s == 2) || (h == 1 && 3 <= s < 33)
  {
    assert HashFor(256)(0) == 0 && HashFor(256)(256) == 0 && HashFor(256)(2) == 2;
    assert 3 <= s < 33 ==> HashFor(256)(KeyOfHomeOne(s - 3)) == 1;
  }

  lemma CrowdedChain(h: nat)
    requires h < |Crowded()|
    ensures ChainOk(Crowded(), HashFor(256), h)
  {
    forall s: nat
      ensures On(Crowded(), HashFor(256), h, s)
         <==> (h == 0 && s < 2) || (h == 2 && s == 2) || (h == 1 && 3 <= s < 33)
    {
      CrowdedOn(h, s);
    }
  }

  lemma CrowdedIsDense()
    ensures Dense(Crowded(), HashFor(256)) && Compact(Crowded())
    ensures AllUsed(Crowded(), 0, 33) && !Crowded()[33].use
  {
    var t, home := Crowded(), HashFor(256);
    assert forall s: nat :: s < |t| ==> t[s].use == (s < 33);
    forall s: nat | s < |t|
      ensures DenseAt(t, home, -1, s)
    {
    }
  }

  lemma CrowdedIsFine()
    ensures Valid(Crowded(), HashFor(256)) && Dense(Crowded(), HashFor(256)) && Compact(Crowded())
    ensures AllUsed(Crowded(), 0, 33) && !Crowded()[33].use
  {
    var t, home := Crowded(), HashFor(256);
    forall s: nat | s < |t| && t[s].use
      ensures s < 33 && home(t[s].key) <= s < home(t[s].key) + NEIGHBOURS
    {
      CrowdedOn(home(t[s].key), s);
    }
    forall h: nat | h < |t|
      ensures ChainOk(t, home, h)
    {
      CrowdedChain(h);
    }
    CrowdedIsDense();
  }

  /** Without any key being removed: one more key of home 1 finds its neighbourhood full. The search for an
      element that can hop passes over slots 32 to 3 and stops at slot 2: key 2 hops to slot 33, the new key
      takes slot 2, and the thirty others of its home are cut off. */
  lemma DisplacementLosesKeys(val: int)
    ensures var t, home := Crowded(), HashFor(256);
            && Searching(t, home, Model(t), 1, 2, 33) && home(t[2].key) > 33 - NEIGHBOURS
            && CanHop(t, home, 2, 2, 33, -1)
            && var t1 := Hop(t, 2, 2, 33, -1);
               && CanPlace(t1, home, 1, 2, -1, KeyOfHomeOne(30)) && StartsBehind(t, 1, 2)
               && var t' := Place(t1, 1, 2, -1, KeyOfHomeOne(30), val);
                  && Target(1, t'[1].first) == 2 && Target(2, t'[2].next) == -1
                  && !Valid(t', home) && forall s: nat :: 3 <= s < 33 ==> On(t', home, 1, s)
  {
    var t, home := Crowded(), HashFor(256);
    CrowdedIsFine();
    CrowdedHops();
    forall s: nat | 2 <= s < 33
      ensures home(t[s].key) == if s == 2 then 2 else 1
    {
      CrowdedOn(if s == 2 then 2 else 1, s);
    }
    var t1 := Hop(t, 2, 2, 33, -1);
    HopKeeps(t, t1, home, 2, 2, 33, -1);
    HopSparesOthers(t, t1, home, 2, 2, 33, -1, 1);
    CrowdedHasRoom(t1);
    CutOffIsLost(t1, Place(t1, 1, 2, -1, KeyOfHomeOne(30), val), home, 1, 2, -1, KeyOfHomeOne(30), val);
    forall s: nat | 3 <= s < 33
      ensures On(Place(t1, 1, 2, -1, KeyOfHomeOne(30), val), home, 1, s)
    {
      CrowdedOn(1, s);
    }
  }

  lemma CrowdedHops()
    ensures CanHop(Crowded(), HashFor(256), 2, 2, 33, -1)
  {
    CrowdedIsFine();
    forall s: nat
      ensures On(Crowded(), HashFor(256), 2, s) <==> s == 2
    {
      CrowdedOn(2, s);
    }
  }

  lemma CrowdedHasRoom(t1: seq<Bucket<int>>)
    requires t1 == Hop(Crowded(), 2, 2, 33, -1) && Valid(t1, HashFor(256)) && Model(t1) == Model(Crowded())
    requires SameChain(Crowded(), t1, HashFor(256), 1)
    ensures CanPlace(t1, HashFor(256), 1, 2, -1, KeyOfHomeOne(30)) && CutsOff(t1, 1, -1)
    ensures StartsBehind(Crowded(), 1, 2)
  {
    var t := Crowded();
    forall s: nat | s < 3
      ensures !On(t, HashFor(256), 1, s)
    {
      CrowdedOn(1, s);
    }
    forall s: nat | s < |t| && t[s].use
      ensures t[s].key != KeyOfHomeOne(30)
    {
    }
    NotStored(t, HashFor(256), KeyOfHomeOne(30));
  }
}
