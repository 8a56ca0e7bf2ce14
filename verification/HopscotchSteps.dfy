/** Unlinking, compacting and placing an element, and what each does to chains and map. */
module HopscotchSteps {
  import opened HopscotchTable

  lemma PrevLink<V>(t: seq<Bucket<V>>, home: Hash, h: nat, b: nat, p: int)
    requires h < |t| && ChainOk(t, home, h) && IsPrev(t, home, h, b, p)
    ensures LinkOk(t, home, h, if p == -1 then h else p, LinkOf(t, h, p), p + 1)
  {
    assert p >= 0 ==> SlotOk(t, home, h, p);
  }

  // ---- taking an element out ----

  function Unlink<V>(t: seq<Bucket<V>>, h: nat, b: nat, p: int): (t': seq<Bucket<V>>)
    requires h < |t| && b < |t| && -1 <= p < |t|
    ensures |t'| == |t|
  {
    var from := if p == -1 then h else p;
    var t1 := Relink(t, h, p, if t[b].next == 0 then 0 else Byte(b + t[b].next - 1 - from + 1));
    t1[b := t1[b].(use := false)]
  }

  ghost predicate CanUnlink<V>(t: seq<Bucket<V>>, home: Hash, h: nat, b: nat, p: int)
  {
    Valid(t, home) && On(t, home, h, b) && IsPrev(t, home, h, b, p)
  }

  /** The new link skips b, and does not wrap around. */
  lemma UnlinkFits<V>(t: seq<Bucket<V>>, home: Hash, h: nat, b: nat, p: int)
    requires CanUnlink(t, home, h, b, p)
    ensures h <= b < h + NEIGHBOURS && h < |t| && (p >= 0 ==> h <= p)
    ensures b + t[b].next <= h + NEIGHBOURS
    ensures var from := if p == -1 then h else p;
            t[b].next != 0 ==> Byte(b + t[b].next - 1 - from + 1) == b + t[b].next - from
  {
    assert ChainOk(t, home, h);
    assert SlotOk(t, home, h, b);
    assert p >= 0 ==> On(t, home, h, p);
    if t[b].next != 0 {
      assert On(t, home, h, b + t[b].next - 1);
      ByteSmall(b + t[b].next - if p == -1 then h else p);
    }
  }

  /** Of the links of chain h, only the one to b changes. */
  ghost predicate Relinked<V>(t: seq<Bucket<V>>, t': seq<Bucket<V>>, home: Hash, h: nat, p: int, link: nat)
  {
    && h < |t| == |t'| && -1 <= p < |t|
    && (if p == -1 then t'[h].first == link else t'[h].first == t[h].first && t'[p].next == link)
    && forall s: nat :: On(t, home, h, s) && s != p && s < |t'| && t'[s].use ==> t'[s].next == t[s].next
  }

  ghost predicate Skipped<V>(t: seq<Bucket<V>>, t': seq<Bucket<V>>, home: Hash, h: nat, b: nat, p: int)
  {
    && h <= b && On(t, home, h, b) && IsPrev(t, home, h, b, p) && (p >= 0 ==> h <= p)
    && (forall s: nat :: On(t', home, h, s) == (On(t, home, h, s) && s != b))
    && Relinked(t, t', home, h, p, if t[b].next == 0 then 0 else b + t[b].next - if p == -1 then h else p)
  }

  lemma UnlinkFirst<V>(t: seq<Bucket<V>>, t': seq<Bucket<V>>, home: Hash, h: nat, b: nat, p: int)
    requires Skipped(t, t', home, h, b, p) && ChainOk(t, home, h)
    ensures LinkOk(t', home, h, h, t'[h].first, 0)
  {
    if p == -1 {
      UnlinkSkips(t, t', home, h, b, p, h, t'[h].first);
    } else {
      UnlinkOther(t, t', home, h, b, p, h, t[h].first, 0);
    }
  }

  lemma UnlinkSlot<V>(t: seq<Bucket<V>>, t': seq<Bucket<V>>, home: Hash, h: nat, b: nat, p: int, s: nat)
    requires Skipped(t, t', home, h, b, p) && ChainOk(t, home, h) && On(t', home, h, s)
    ensures SlotOk(t', home, h, s)
  {
    if s == p {
      UnlinkSkips(t, t', home, h, b, p, p, t'[p].next);
    } else {
      assert SlotOk(t, home, h, s);
      assert t'[s].next == t[s].next;
      UnlinkOther(t, t', home, h, b, p, s, t[s].next, s + 1);
    }
  }

  lemma UnlinkSkips<V>(t: seq<Bucket<V>>, t': seq<Bucket<V>>, home: Hash, h: nat, b: nat, p: int, from: nat, link: nat)
    requires |t| == |t'| && On(t, home, h, b) && IsPrev(t, home, h, b, p)
    requires SlotOk(t, home, h, b)
    requires from <= b && link == if t[b].next == 0 then 0 else b + t[b].next - from
    requires forall s: nat :: On(t', home, h, s) == (On(t, home, h, s) && s != b)
    ensures LinkOk(t', home, h, from, link, p + 1)
  {
  }

  /** A link that does not lead to b stays right. */
  lemma UnlinkOther<V>(t: seq<Bucket<V>>, t': seq<Bucket<V>>, home: Hash, h: nat, b: nat, p: int,
                       s: nat, link: nat, from: nat)
    requires |t| == |t'| && IsPrev(t, home, h, b, p)
    requires LinkOk(t, home, h, s, link, from) && (from <= p || b < from)
    requires forall s: nat :: On(t', home, h, s) == (On(t, home, h, s) && s != b)
    ensures LinkOk(t', home, h, s, link, from)
  {
    if from <= p {
      assert link != 0;
      assert s + link - 1 <= p;
    }
  }

  lemma UnlinkSkipped<V>(t: seq<Bucket<V>>, t': seq<Bucket<V>>, home: Hash, h: nat, b: nat, p: int)
    requires CanUnlink(t, home, h, b, p) && h < |t| && t' == Unlink(t, h, b, p)
    ensures Skipped(t, t', home, h, b, p)
  {
    UnlinkFits(t, home, h, b, p);
  }

  lemma UnlinkChain<V>(t: seq<Bucket<V>>, t': seq<Bucket<V>>, home: Hash, h: nat, b: nat, p: int, k: nat)
    requires CanUnlink(t, home, h, b, p) && h < |t| && t' == Unlink(t, h, b, p) && k < |t|
    ensures ChainOk(t', home, k)
  {
    assert ChainOk(t, home, k);
    if k == h {
      UnlinkSkipped(t, t', home, h, b, p);
      UnlinkFirst(t, t', home, h, b, p);
      forall s: nat | On(t', home, h, s)
        ensures SlotOk(t', home, h, s)
      {
        UnlinkSlot(t, t', home, h, b, p, s);
      }
    } else {
      ChainStays(t, t', home, k);
    }
  }

  /** Slot b has been emptied, all others hold what they held. */
  ghost predicate Emptied<V>(t: seq<Bucket<V>>, t': seq<Bucket<V>>, b: nat)
  {
    && |t| == |t'| && b < |t| && t[b].use && !t'[b].use
    && forall s :: 0 <= s < |t| && s != b ==>
         t'[s].use == t[s].use && t'[s].key == t[s].key && t'[s].val == t[s].val
  }

  lemma EmptiedModel<V>(t: seq<Bucket<V>>, t': seq<Bucket<V>>, b: nat)
    requires Emptied(t, t', b) && Distinct(t)
    ensures Distinct(t') && Model(t') == Model(t) - {t[b].key}
  {
    forall k: nat | k in Model(t) && k != t[b].key
      ensures k in Model(t') && Model(t')[k] == Model(t)[k]
    {
      var s := SlotOf(t, |t|, k);
      SlotInModel(t, |t|, s);
      SlotInModel(t', |t'|, s);
    }
    forall k: nat | k in Model(t')
      ensures k in Model(t) && k != t[b].key
    {
      var s := SlotOf(t', |t'|, k);
      SlotInModel(t, |t|, s);
    }
  }

  /** Unlinking keeps all chains and takes exactly the one key out of the map. */
  lemma UnlinkKeeps<V>(t: seq<Bucket<V>>, t': seq<Bucket<V>>, home: Hash, h: nat, b: nat, p: int)
    requires CanUnlink(t, home, h, b, p) && h < |t| && t' == Unlink(t, h, b, p)
    ensures Valid(t', home) && Emptied(t, t', b)
    ensures Model(t') == Model(t) - {t[b].key}
  {
    EmptiedModel(t, t', b);
    forall k: nat | k < |t|
      ensures ChainOk(t', home, k)
    {
      UnlinkChain(t, t', home, h, b, p, k);
    }
  }

  // ---- compacting ----

  /** The last element m of the chain of the free slot b moves to b; q is the bucket that links to m. */
  function Pull<V>(t: seq<Bucket<V>>, b: nat, m: nat, q: nat): (t': seq<Bucket<V>>)
    requires b < |t| && m < |t| && q < |t|
    ensures |t'| == |t|
  {
    var t1 := t[b := Bucket(1, t[b].first, true, t[m].key, t[m].val)];
    var t2 := SetNext(t1, q, 0);
    t2[m := t2[m].(use := false)]
  }

  ghost predicate IsLast<V>(t: seq<Bucket<V>>, home: Hash, b: nat, m: nat, p: int)
  {
    && b < m && On(t, home, b, m) && t[m].next == 0
    && IsPrev(t, home, b, m, p) && (p >= 0 ==> b < p)
  }

  ghost predicate CanPull<V>(t: seq<Bucket<V>>, home: Hash, b: nat, m: nat, p: int)
  {
    Valid(t, home) && b < |t| && !t[b].use && IsLast(t, home, b, m, p)
  }

  ghost predicate Pulled<V>(t: seq<Bucket<V>>, t': seq<Bucket<V>>, home: Hash, b: nat, m: nat)
  {
    forall s: nat :: On(t', home, b, s) == ((On(t, home, b, s) && s != m) || s == b)
  }

  lemma PullSecond<V>(t: seq<Bucket<V>>, t': seq<Bucket<V>>, home: Hash, b: nat, m: nat, p: int)
    requires |t| == |t'| && b < |t| && IsLast(t, home, b, m, p) && !t[b].use && Pulled(t, t', home, b, m)
    requires LinkOk(t, home, b, b, t[b].first, 0) && LinkOk(t, home, b, m, 0, m + 1)
    requires forall s: nat :: On(t, home, b, s) ==> b <= s
    ensures LinkOk(t', home, b, b, if p == -1 then 0 else t[b].first, b + 1)
  {
    if p != -1 {
      assert b + t[b].first - 1 <= p;
    }
  }

  lemma PullOther<V>(t: seq<Bucket<V>>, t': seq<Bucket<V>>, home: Hash, b: nat, m: nat, p: int, s: nat)
    requires |t| == |t'| && b < s < |t| && IsLast(t, home, b, m, p) && Pulled(t, t', home, b, m)
    requires LinkOk(t, home, b, m, 0, m + 1) && On(t, home, b, s) && s != m
    requires SlotOk(t, home, b, s)
    ensures LinkOk(t', home, b, s, if s == p then 0 else t[s].next, s + 1)
  {
    if s < p {
      LinkBefore(t, t', home, b, s, t[s].next, p, m);
    }
  }

  lemma PullOwnChain<V>(t: seq<Bucket<V>>, t': seq<Bucket<V>>, home: Hash, b: nat, m: nat, p: int)
    requires CanPull(t, home, b, m, p) && t' == Pull(t, b, m, if p == -1 then b else p)
    requires Pulled(t, t', home, b, m)
    ensures ChainOk(t', home, b)
  {
    assert ChainOk(t, home, b);
    assert SlotOk(t, home, b, m);
    PullSecond(t, t', home, b, m, p);
    forall s: nat | s != b
      ensures SlotOk(t', home, b, s)
    {
      PullOwnSlot(t, t', home, b, m, p, s);
    }
  }

  lemma PullOwnSlot<V>(t: seq<Bucket<V>>, t': seq<Bucket<V>>, home: Hash, b: nat, m: nat, p: int, s: nat)
    requires CanPull(t, home, b, m, p) && t' == Pull(t, b, m, if p == -1 then b else p)
    requires Pulled(t, t', home, b, m) && s != b
    ensures SlotOk(t', home, b, s)
  {
    assert ChainOk(t, home, b);
    assert SlotOk(t, home, b, m) && SlotOk(t, home, b, s);
    if On(t', home, b, s) {
      PullOther(t, t', home, b, m, p, s);
    }
  }

  lemma PullChain<V>(t: seq<Bucket<V>>, t': seq<Bucket<V>>, home: Hash, b: nat, m: nat, p: int, k: nat)
    requires CanPull(t, home, b, m, p) && t' == Pull(t, b, m, if p == -1 then b else p) && k < |t|
    ensures ChainOk(t', home, k)
  {
    assert ChainOk(t, home, k);
    if k == b {
      assert Pulled(t, t', home, b, m);
      PullOwnChain(t, t', home, b, m, p);
    } else {
      ChainStays(t, t', home, k);
    }
  }

  /** Compacting keeps all chains and the map; the free slot moves on. */
  lemma PullKeeps<V>(t: seq<Bucket<V>>, t': seq<Bucket<V>>, home: Hash, b: nat, m: nat, p: int)
    requires CanPull(t, home, b, m, p) && t' == Pull(t, b, m, if p == -1 then b else p)
    ensures Valid(t', home) && Model(t') == Model(t) && Moved(t, t', m, b)
  {
    MovedKeepsModel(t, t', m, b);
    forall k: nat | k < |t|
      ensures ChainOk(t', home, k)
    {
      PullChain(t, t', home, b, m, p, k);
    }
  }

  // ---- placing a new element ----

  function Place<V>(t: seq<Bucket<V>>, h: nat, e: nat, p: int, key: nat, val: V): (t': seq<Bucket<V>>)
    requires h < |t| && e < |t| && -1 <= p < |t|
    ensures |t'| == |t|
  {
    var t1 := t[e := Bucket(t[e].first, t[e].next, true, key, val)];
    if p == -1 then
      SetNext(SetFirst(t1, h, Byte(e - h + 1)), e, 0)
    else
      var next := p + t[p].next - 1;
      SetNext(SetNext(t1, p, Byte(e - p + 1)), e, if t[p].next == 0 then 0 else Byte(next - e + 1))
  }

  ghost predicate CanPlace<V>(t: seq<Bucket<V>>, home: Hash, h: nat, e: nat, p: int, key: nat)
  {
    && Valid(t, home) && e < |t| && !t[e].use && h <= e < h + NEIGHBOURS
    && home(key) == h && key !in Model(t) && IsPrev(t, home, h, e, p)
  }

  /** The chain of home h starts only after slot e: its first element would be cut off. */
  ghost predicate CutsOff<V>(t: seq<Bucket<V>>, h: nat, p: int)
    requires h < |t|
  {
    p == -1 && t[h].first != 0
  }

  lemma NextInReach<V>(t: seq<Bucket<V>>, home: Hash, h: nat, s: nat)
    requires Valid(t, home) && On(t, home, h, s) && t[s].next != 0
    ensures On(t, home, h, s + t[s].next - 1) && s < s + t[s].next - 1 < h + NEIGHBOURS
  {
    assert ChainOk(t, home, h);
    assert SlotOk(t, home, h, s);
  }

  lemma PlaceFits<V>(t: seq<Bucket<V>>, home: Hash, h: nat, e: nat, p: int, key: nat)
    requires CanPlace(t, home, h, e, p, key)
    ensures h < |t| && p < |t| && (p >= 0 ==> h <= p)
    ensures Byte(e - (if p == -1 then h else p) + 1) == e - (if p == -1 then h else p) + 1
    ensures p >= 0 && t[p].next != 0 ==> Byte(p + t[p].next - 1 - e + 1) == p + t[p].next - e > 1
  {
    assert p >= 0 ==> On(t, home, h, p) && h <= p;
    ByteSmall(e - (if p == -1 then h else p) + 1);
    if p >= 0 && t[p].next != 0 {
      NextInReach(t, home, h, p);
      var n := p + t[p].next - 1;
      assert n >= e && n != e;
      ByteSmall(n - e + 1);
    }
  }

  ghost predicate Joined<V>(t: seq<Bucket<V>>, t': seq<Bucket<V>>, home: Hash, h: nat, e: nat)
  {
    forall s: nat :: On(t', home, h, s) == (On(t, home, h, s) || s == e)
  }

  lemma PlaceLink<V>(t: seq<Bucket<V>>, t': seq<Bucket<V>>, home: Hash, h: nat, e: nat, p: int, from: nat)
    requires |t| == |t'| && h < |t| && e < |t| && !t[e].use && IsPrev(t, home, h, e, p)
    requires Joined(t, t', home, h, e) && from <= e
    ensures LinkOk(t', home, h, from, e - from + 1, p + 1)
  {
    assert Nearest(t', home, h, p + 1, e);
  }

  lemma PlaceNext<V>(t: seq<Bucket<V>>, t': seq<Bucket<V>>, home: Hash, h: nat, e: nat, p: int, from: nat, link: nat)
    requires |t| == |t'| && h < |t| && e < |t| && !t[e].use && IsPrev(t, home, h, e, p)
    requires Joined(t, t', home, h, e) && LinkOk(t, home, h, from, link, p + 1) && from <= e
    ensures link != 0 ==> from + link - 1 > e
    ensures LinkOk(t', home, h, e, if link == 0 then 0 else from + link - e, e + 1)
  {
  }

  lemma PlaceOther<V>(t: seq<Bucket<V>>, t': seq<Bucket<V>>, home: Hash, h: nat, e: nat, p: int, s: nat, link: nat,
                      from: nat)
    requires |t| == |t'| && e < |t| && !t[e].use && IsPrev(t, home, h, e, p)
    requires Joined(t, t', home, h, e) && LinkOk(t, home, h, s, link, from) && (from <= p || e < from)
    ensures LinkOk(t', home, h, s, link, from)
  {
    if from <= p {
      assert link != 0;
      assert s + link - 1 <= p;
    }
  }

  ghost predicate Slotted<V>(t: seq<Bucket<V>>, t': seq<Bucket<V>>, home: Hash, h: nat, e: nat, p: int)
  {
    && h <= e < |t| && !t[e].use && IsPrev(t, home, h, e, p) && (p >= 0 ==> h <= p)
    && Joined(t, t', home, h, e)
    && Relinked(t, t', home, h, p, e - (if p == -1 then h else p) + 1)
    && t'[e].next == if LinkOf(t, h, p) == 0 then 0 else (if p == -1 then h else p) + LinkOf(t, h, p) - e
  }

  lemma PlaceFirst<V>(t: seq<Bucket<V>>, t': seq<Bucket<V>>, home: Hash, h: nat, e: nat, p: int)
    requires Slotted(t, t', home, h, e, p) && LinkOk(t, home, h, h, t[h].first, 0)
    ensures LinkOk(t', home, h, h, t'[h].first, 0)
  {
    if p == -1 {
      PlaceLink(t, t', home, h, e, p, h);
    } else {
      PlaceOther(t, t', home, h, e, p, h, t[h].first, 0);
    }
  }

  lemma PlaceSlot<V>(t: seq<Bucket<V>>, t': seq<Bucket<V>>, home: Hash, h: nat, e: nat, p: int, s: nat)
    requires Slotted(t, t', home, h, e, p) && ChainOk(t, home, h) && On(t', home, h, s)
    ensures SlotOk(t', home, h, s)
  {
    if s == e {
      PrevLink(t, home, h, e, p);
      PlaceNext(t, t', home, h, e, p, if p == -1 then h else p, LinkOf(t, h, p));
    } else if s == p {
      PlaceLink(t, t', home, h, e, p, p);
    } else {
      assert SlotOk(t, home, h, s);
      assert t'[s].next == t[s].next;
      PlaceOther(t, t', home, h, e, p, s, t[s].next, s + 1);
    }
  }

  lemma PlaceSlots<V>(t: seq<Bucket<V>>, t': seq<Bucket<V>>, home: Hash, h: nat, e: nat, p: int, key: nat, val: V)
    requires CanPlace(t, home, h, e, p, key) && h < |t| && p < |t| && t' == Place(t, h, e, p, key, val)
    requires !CutsOff(t, h, p)
    ensures Slotted(t, t', home, h, e, p)
  {
    PlaceFits(t, home, h, e, p, key);
  }

  lemma PlaceChain<V>(t: seq<Bucket<V>>, t': seq<Bucket<V>>, home: Hash, h: nat, e: nat, p: int,
                      key: nat, val: V, k: nat)
    requires CanPlace(t, home, h, e, p, key) && h < |t| && p < |t| && t' == Place(t, h, e, p, key, val)
    requires !CutsOff(t, h, p) && k < |t|
    ensures ChainOk(t', home, k)
  {
    assert ChainOk(t, home, k);
    if k == h {
      PlaceSlots(t, t', home, h, e, p, key, val);
      PlaceFirst(t, t', home, h, e, p);
      forall s: nat | On(t', home, h, s)
        ensures SlotOk(t', home, h, s)
      {
        PlaceSlot(t, t', home, h, e, p, s);
      }
    } else {
      ChainStays(t, t', home, k);
    }
  }

  lemma PlaceModel<V>(t: seq<Bucket<V>>, t': seq<Bucket<V>>, home: Hash, h: nat, e: nat, p: int, key: nat, val: V)
    requires CanPlace(t, home, h, e, p, key) && h < |t| && p < |t| && t' == Place(t, h, e, p, key, val)
    ensures Distinct(t') && Model(t') == Model(t)[key := val]
  {
    forall s: nat | s < |t| && t[s].use
      ensures t[s].key != key
    {
      SlotInModel(t, |t|, s);
    }
    assert Distinct(t');
    forall k: nat | k in Model(t)[key := val]
      ensures k in Model(t') && Model(t')[k] == Model(t)[key := val][k]
    {
      if k == key {
        SlotInModel(t', |t'|, e);
      } else {
        var s := SlotOf(t, |t|, k);
        SlotInModel(t, |t|, s);
        SlotInModel(t', |t'|, s);
      }
    }
    forall k: nat | k in Model(t')
      ensures k in Model(t)[key := val]
    {
      var s := SlotOf(t', |t'|, k);
      if s != e {
        SlotInModel(t, |t|, s);
      }
    }
  }

  /** Placing the element is right exactly when the chain does not start behind it. */
  lemma PlaceKeeps<V>(t: seq<Bucket<V>>, t': seq<Bucket<V>>, home: Hash, h: nat, e: nat, p: int, key: nat, val: V)
    requires CanPlace(t, home, h, e, p, key) && h < |t| && p < |t| && t' == Place(t, h, e, p, key, val)
    ensures Distinct(t') && Model(t') == Model(t)[key := val]
    ensures Valid(t', home) <==> !CutsOff(t, h, p)
  {
    PlaceModel(t, t', home, h, e, p, key, val);
    if CutsOff(t, h, p) {
      CutOffIsLost(t, t', home, h, e, p, key, val);
    } else {
      forall k: nat | k < |t|
        ensures ChainOk(t', home, k)
      {
        PlaceChain(t, t', home, h, e, p, key, val, k);
      }
    }
  }

  /** What is cut off: the chain of home h consists of the new element alone. */
  lemma CutOffIsLost<V>(t: seq<Bucket<V>>, t': seq<Bucket<V>>, home: Hash, h: nat, e: nat, p: int, key: nat, val: V)
    requires CanPlace(t, home, h, e, p, key) && h < |t| && p < |t| && t' == Place(t, h, e, p, key, val)
    requires CutsOff(t, h, p)
    ensures t'[h].first == e - h + 1 && t'[e].next == 0
    ensures e < h + t[h].first - 1 && On(t', home, h, h + t[h].first - 1)
    ensures !Valid(t', home)
  {
    PlaceFits(t, home, h, e, p, key);
    assert ChainOk(t, home, h);
    var f := h + t[h].first - 1;
    assert On(t, home, h, f) && f != e;
    assert On(t', home, h, f) && On(t', home, h, e);
    assert !NoneFrom(t', home, h, e + 1);
    assert !SlotOk(t', home, h, e);
    assert !ChainOk(t', home, h);
  }
}
