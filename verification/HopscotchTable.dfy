/** The bucket array of the hopscotch table: slots, chains of equal homes, and the map they stand for. */
module HopscotchTable {

  const NEIGHBOURS := 32

  /** first: offset + 1 of the first element whose home is here; next: offset + 1 of the next element
      with the home of the element stored here; 0 for none. */
  datatype Bucket<V> = Bucket(first: nat, next: nat, use: bool, key: nat, val: V)

  /** An 8-bit unsigned number. */
  function Byte(x: int): nat
  {
    x % 256
  }

  /** Where an element with a key wants to be stored. */
  type Hash = nat -> nat

  /** Slot s stores an element of home h. */
  predicate On<V>(t: seq<Bucket<V>>, home: Hash, h: nat, s: nat)
  {
    s < |t| && t[s].use && home(t[s].key) == h
  }

  /** s is the first slot from `from` on with an element of home h. */
  ghost predicate Nearest<V>(t: seq<Bucket<V>>, home: Hash, h: nat, from: nat, s: nat)
  {
    && from <= s && On(t, home, h, s)
    && forall r: nat :: from <= r < s ==> !On(t, home, h, r)
  }

  ghost predicate NoneFrom<V>(t: seq<Bucket<V>>, home: Hash, h: nat, from: nat)
  {
    forall r: nat :: from <= r < |t| ==> !On(t, home, h, r)
  }

  /** A link from slot s, or none (0), to the nearest element of home h from `from` on. */
  ghost predicate LinkOk<V>(t: seq<Bucket<V>>, home: Hash, h: nat, s: nat, link: nat, from: nat)
  {
    if link == 0 then NoneFrom(t, home, h, from) else Nearest(t, home, h, from, s + link - 1)
  }

  /** Slot s, if it holds an element of home h, links to the next one. */
  ghost predicate SlotOk<V>(t: seq<Bucket<V>>, home: Hash, h: nat, s: nat)
  {
    On(t, home, h, s) ==> LinkOk(t, home, h, s, t[s].next, s + 1)
  }

  /** The links of home h list its elements in increasing order, from the first to the last. */
  ghost predicate ChainOk<V>(t: seq<Bucket<V>>, home: Hash, h: nat)
    requires h < |t|
  {
    && LinkOk(t, home, h, h, t[h].first, 0)
    && forall s: nat :: SlotOk(t, home, h, s)
  }

  ghost predicate InReach<V>(t: seq<Bucket<V>>, home: Hash)
  {
    forall s: nat :: s < |t| && t[s].use ==> home(t[s].key) <= s < home(t[s].key) + NEIGHBOURS
  }

  ghost predicate Distinct<V>(t: seq<Bucket<V>>)
  {
    forall r: nat, s: nat :: r < |t| && s < |t| && t[r].use && t[s].use && t[r].key == t[s].key ==> r == s
  }

  /** The table invariant. */
  ghost predicate Valid<V>(t: seq<Bucket<V>>, home: Hash)
  {
    && InReach(t, home) && Distinct(t)
    && forall h: nat :: h < |t| ==> ChainOk(t, home, h)
  }

  /** What the first i slots store. */
  ghost function ModelFirst<V>(t: seq<Bucket<V>>, i: nat): map<nat, V>
    requires i <= |t|
  {
    if i == 0 then map[]
    else if t[i - 1].use then ModelFirst(t, i - 1)[t[i - 1].key := t[i - 1].val]
    else ModelFirst(t, i - 1)
  }

  /** What the table stores. */
  ghost function Model<V>(t: seq<Bucket<V>>): map<nat, V>
  {
    ModelFirst(t, |t|)
  }

  lemma {:induction false} SlotInModel<V>(t: seq<Bucket<V>>, i: nat, s: nat)
    requires Distinct(t) && s < i <= |t| && t[s].use
    ensures t[s].key in ModelFirst(t, i) && ModelFirst(t, i)[t[s].key] == t[s].val
  {
    if s < i - 1 {
      SlotInModel(t, i - 1, s);
    }
  }

  lemma {:induction false} SlotOf<V>(t: seq<Bucket<V>>, i: nat, k: nat) returns (s: nat)
    requires i <= |t| && k in ModelFirst(t, i)
    ensures s < i && t[s].use && t[s].key == k
  {
    if t[i - 1].use && t[i - 1].key == k {
      s := i - 1;
    } else {
      s := SlotOf(t, i - 1, k);
    }
  }

  /** No slot is free while elements that want it lie further on. */
  ghost predicate Compact<V>(t: seq<Bucket<V>>)
  {
    forall s: nat :: s < |t| && !t[s].use ==> t[s].first == 0
  }

  lemma OffsetsAreSmall<V>(t: seq<Bucket<V>>, home: Hash, s: nat)
    requires Valid(t, home) && s < |t|
    ensures t[s].first <= NEIGHBOURS && (t[s].first > 0 ==> s + t[s].first - 1 < |t|)
    ensures t[s].use ==> t[s].next <= NEIGHBOURS && s + t[s].next < |t| + 1 && t[s].next != 1
  {
    assert ChainOk(t, home, s);
    if t[s].use {
      assert ChainOk(t, home, home(t[s].key));
      assert SlotOk(t, home, home(t[s].key), s);
    }
  }

  lemma LinkStays<V>(t: seq<Bucket<V>>, t': seq<Bucket<V>>, home: Hash, h: nat, s: nat, link: nat, from: nat)
    requires |t| == |t'| && LinkOk(t, home, h, s, link, from)
    requires forall r: nat :: from <= r ==> On(t', home, h, r) == On(t, home, h, r)
    ensures LinkOk(t', home, h, s, link, from)
  {
  }

  /** A chain that no changed bucket belongs to stays as it is. */
  lemma ChainStays<V>(t: seq<Bucket<V>>, t': seq<Bucket<V>>, home: Hash, h: nat)
    requires h < |t| == |t'| && ChainOk(t, home, h)
    requires t'[h].first == t[h].first
    requires forall s: nat :: On(t', home, h, s) == On(t, home, h, s)
    requires forall s: nat :: On(t, home, h, s) ==> t'[s].next == t[s].next
    ensures ChainOk(t', home, h)
  {
    LinkStays(t, t', home, h, h, t[h].first, 0);
    forall s: nat | On(t', home, h, s)
      ensures SlotOk(t', home, h, s)
    {
      assert SlotOk(t, home, h, s);
      if On(t, home, h, s) {
        LinkStays(t, t', home, h, s, t[s].next, s + 1);
      }
    }
  }

  /** p is the last element of home h before slot b; p is -1 if there is none. */
  ghost predicate IsPrev<V>(t: seq<Bucket<V>>, home: Hash, h: nat, b: nat, p: int)
  {
    && -1 <= p < b
    && (p >= 0 ==> On(t, home, h, p))
    && forall r: nat :: p < r < b ==> !On(t, home, h, r)
  }

  // ---- moving an element to a free slot further on ----

  function SetFirst<V>(t: seq<Bucket<V>>, h: nat, first: nat): (t': seq<Bucket<V>>)
    requires h < |t|
    ensures |t'| == |t|
  {
    t[h := t[h].(first := first)]
  }

  function SetNext<V>(t: seq<Bucket<V>>, s: nat, next: nat): (t': seq<Bucket<V>>)
    requires s < |t|
    ensures |t'| == |t|
  {
    t[s := t[s].(next := next)]
  }

  /** Lets the predecessor p of an element, or its home h, link to an offset. */
  function Relink<V>(t: seq<Bucket<V>>, h: nat, p: int, link: nat): (t': seq<Bucket<V>>)
    requires h < |t| && -1 <= p < |t|
    ensures |t'| == |t|
  {
    if p == -1 then SetFirst(t, h, link) else SetNext(t, p, link)
  }

  function LinkOf<V>(t: seq<Bucket<V>>, h: nat, p: int): nat
    requires h < |t| && -1 <= p < |t|
  {
    if p == -1 then t[h].first else t[p].next
  }

  function Hop<V>(t: seq<Bucket<V>>, h: nat, c: nat, e: nat, p: int): (t': seq<Bucket<V>>)
    requires h < |t| && -1 <= p < c < e < |t|
    ensures |t'| == |t|
  {
    var diff := Byte(e - c);
    var t1 := t[e := Bucket(t[e].first, t[e].next, true, t[c].key, t[c].val)];
    var t2 := Relink(t1, h, p, Byte(LinkOf(t1, h, p) + diff));
    var t3 := SetNext(t2, e, Byte(t[c].next - if t[c].next == 0 then 0 else diff));
    t3[c := t3[c].(use := false)]
  }

  /** c and a free slot e > c with nothing of home h between them; p is the element before c. */
  ghost predicate Gap<V>(t: seq<Bucket<V>>, home: Hash, h: nat, c: nat, e: nat, p: int)
  {
    && h <= c < e < |t| && !t[e].use && On(t, home, h, c)
    && (forall s: nat :: c < s < e ==> !On(t, home, h, s))
    && IsPrev(t, home, h, c, p) && (p >= 0 ==> h <= p)
  }

  ghost predicate Leap<V>(t: seq<Bucket<V>>, home: Hash, h: nat, c: nat, e: nat, p: int)
  {
    Gap(t, home, h, c, e, p) && ChainOk(t, home, h)
  }

  /** A leap within the reach of home h. */
  ghost predicate CanHop<V>(t: seq<Bucket<V>>, home: Hash, h: nat, c: nat, e: nat, p: int)
  {
    Valid(t, home) && Leap(t, home, h, c, e, p) && e < h + NEIGHBOURS
  }

  lemma HopFits<V>(t: seq<Bucket<V>>, home: Hash, h: nat, c: nat, e: nat, p: int)
    requires Leap(t, home, h, c, e, p) && e < h + NEIGHBOURS
    ensures Byte(e - c) == e - c < NEIGHBOURS
    ensures LinkOf(t, h, p) + (e - c) <= NEIGHBOURS
  {
    LinksMeet(t, home, h, c, e, p);
  }

  lemma LinksMeet<V>(t: seq<Bucket<V>>, home: Hash, h: nat, c: nat, e: nat, p: int)
    requires Leap(t, home, h, c, e, p)
    ensures t[c].next == 0 || t[c].next > e - c
    ensures LinkOf(t, h, p) == c - (if p == -1 then h else p) + 1
  {
    assert SlotOk(t, home, h, c);
    if p == -1 {
      assert LinkOk(t, home, h, h, t[h].first, 0);
    } else {
      assert SlotOk(t, home, h, p);
      assert On(t, home, h, p);
    }
  }

  lemma HopOn<V>(t: seq<Bucket<V>>, t': seq<Bucket<V>>, home: Hash, h: nat, c: nat, e: nat, p: int, k: nat, s: nat)
    requires CanHop(t, home, h, c, e, p) && t' == Hop(t, h, c, e, p)
    ensures On(t', home, k, s) == ((On(t, home, k, s) && s != c) || (k == h && s == e))
  {
    HopFits(t, home, h, c, e, p);
  }

  /** The offsets that a hop changes, none of them wrapping around. */
  ghost predicate LinksHop<V>(t: seq<Bucket<V>>, t': seq<Bucket<V>>, h: nat, c: nat, e: nat, p: int, s: nat)
    requires s < |t| == |t'| && c < e < |t|
  {
    && t'[s].first == t[s].first + (if s == h && p == -1 then e - c else 0)
    && t'[s].next == if s == e then (if t[c].next == 0 then 0 else t[c].next - (e - c))
                     else t[s].next + (if s == p then e - c else 0)
  }

  lemma ByteSmall(x: nat)
    requires x < 256
    ensures Byte(x) == x
  {
  }

  lemma HopLinksAt<V>(t: seq<Bucket<V>>, t': seq<Bucket<V>>, h: nat, c: nat, e: nat, p: int, s: nat)
    requires h < |t| && -1 <= p < c < e < |t| && s < |t| && h <= c
    requires e - c + LinkOf(t, h, p) < 256
    requires t[c].next == 0 || e - c < t[c].next < 256
    requires t' == Hop(t, h, c, e, p)
    ensures LinksHop(t, t', h, c, e, p, s)
  {
    ByteSmall(e - c);
    ByteSmall(LinkOf(t, h, p) + (e - c));
    ByteSmall(t[c].next - if t[c].next == 0 then 0 else e - c);
  }

  lemma HopLinks<V>(t: seq<Bucket<V>>, t': seq<Bucket<V>>, home: Hash, h: nat, c: nat, e: nat, p: int)
    requires CanHop(t, home, h, c, e, p) && t' == Hop(t, h, c, e, p)
    ensures forall s: nat :: s < |t| ==> LinksHop(t, t', h, c, e, p, s)
  {
    HopFits(t, home, h, c, e, p);
    LinksMeet(t, home, h, c, e, p);
    OffsetsAreSmall(t, home, c);
    forall s: nat | s < |t|
      ensures LinksHop(t, t', h, c, e, p, s)
    {
      HopLinksAt(t, t', h, c, e, p, s);
    }
  }

  lemma HopOwnChain<V>(t: seq<Bucket<V>>, t': seq<Bucket<V>>, home: Hash, h: nat, c: nat, e: nat, p: int)
    requires CanHop(t, home, h, c, e, p) && t' == Hop(t, h, c, e, p)
    ensures ChainOk(t', home, h)
  {
    HopFits(t, home, h, c, e, p);
    HopLinks(t, t', home, h, c, e, p);
    forall s: nat
      ensures On(t', home, h, s) == ((On(t, home, h, s) && s != c) || s == e)
    {
      HopOn(t, t', home, h, c, e, p, h, s);
    }
    assert Swapped(t, t', home, h, c, e);
    assert LinksHop(t, t', h, c, e, p, h);
    HopFirst(t, t', home, h, c, e, p);
    forall s: nat | On(t', home, h, s)
      ensures SlotOk(t', home, h, s)
    {
      assert LinksHop(t, t', h, c, e, p, s);
      HopNext(t, t', home, h, c, e, p, s);
    }
  }

  /** The elements of home h, before and after the hop. */
  ghost predicate Swapped<V>(t: seq<Bucket<V>>, t': seq<Bucket<V>>, home: Hash, h: nat, c: nat, e: nat)
  {
    forall s: nat :: On(t', home, h, s) == ((On(t, home, h, s) && s != c) || s == e)
  }

  lemma HopFirst<V>(t: seq<Bucket<V>>, t': seq<Bucket<V>>, home: Hash, h: nat, c: nat, e: nat, p: int)
    requires Leap(t, home, h, c, e, p) && |t'| == |t| && Swapped(t, t', home, h, c, e)
    requires t'[h].first == t[h].first + if p == -1 then e - c else 0
    ensures LinkOk(t', home, h, h, t'[h].first, 0)
  {
    LinksMeet(t, home, h, c, e, p);
    assert LinkOk(t, home, h, h, t[h].first, 0);
    assert On(t, home, h, c);
    assert Nearest(t', home, h, 0, h + t'[h].first - 1);
  }

  lemma HopNext<V>(t: seq<Bucket<V>>, t': seq<Bucket<V>>, home: Hash, h: nat, c: nat, e: nat, p: int, s: nat)
    requires Leap(t, home, h, c, e, p) && |t'| == |t| && Swapped(t, t', home, h, c, e)
    requires On(t', home, h, s)
    requires s != e ==> t'[s].next == t[s].next + if s == p then e - c else 0
    requires s == e ==> t'[e].next == if t[c].next == 0 then 0 else t[c].next - (e - c)
    ensures SlotOk(t', home, h, s)
  {
    LinksMeet(t, home, h, c, e, p);
    var was := if s == e then c else s;
    assert SlotOk(t, home, h, was);
    if s == e {
      HopLanded(t, t', home, h, c, e, p);
    } else {
      HopOther(t, t', home, h, c, e, p, s);
    }
  }

  lemma HopLanded<V>(t: seq<Bucket<V>>, t': seq<Bucket<V>>, home: Hash, h: nat, c: nat, e: nat, p: int)
    requires Gap(t, home, h, c, e, p) && |t'| == |t| && Swapped(t, t', home, h, c, e)
    requires SlotOk(t, home, h, c) && (t[c].next == 0 || t[c].next > e - c)
    requires t'[e].next == if t[c].next == 0 then 0 else t[c].next - (e - c)
    ensures SlotOk(t', home, h, e)
  {
  }

  lemma HopOther<V>(t: seq<Bucket<V>>, t': seq<Bucket<V>>, home: Hash, h: nat, c: nat, e: nat, p: int, s: nat)
    requires Gap(t, home, h, c, e, p) && |t'| == |t| && Swapped(t, t', home, h, c, e)
    requires On(t, home, h, s) && s != c && s != e && SlotOk(t, home, h, s)
    requires s == p ==> t[s].next == c - p + 1
    requires t'[s].next == t[s].next + if s == p then e - c else 0
    ensures SlotOk(t', home, h, s)
  {
    if s < p {
      LinkBefore(t, t', home, h, s, t[s].next, p, c);
    } else if s == p {
      assert Nearest(t', home, h, s + 1, e);
    } else {
      assert s > e;
      LinkStays(t, t', home, h, s, t[s].next, s + 1);
    }
  }

  /** A link to an element up to p does not see what changes from c > p on. */
  lemma LinkBefore<V>(t: seq<Bucket<V>>, t': seq<Bucket<V>>, home: Hash, h: nat, s: nat, link: nat, p: nat, c: nat)
    requires |t| == |t'| && LinkOk(t, home, h, s, link, s + 1)
    requires s < p < c && On(t, home, h, p)
    requires forall r: nat :: s < r < c ==> On(t', home, h, r) == On(t, home, h, r)
    ensures LinkOk(t', home, h, s, link, s + 1)
  {
    assert link != 0;
    assert s + link - 1 <= p;
  }

  lemma HopChain<V>(t: seq<Bucket<V>>, t': seq<Bucket<V>>, home: Hash, h: nat, c: nat, e: nat, p: int, k: nat)
    requires CanHop(t, home, h, c, e, p) && t' == Hop(t, h, c, e, p) && k < |t|
    ensures ChainOk(t', home, k)
  {
    if k == h {
      HopOwnChain(t, t', home, h, c, e, p);
    } else {
      HopLinks(t, t', home, h, c, e, p);
      assert LinksHop(t, t', h, c, e, p, k);
      forall s: nat
        ensures On(t', home, k, s) == On(t, home, k, s)
        ensures On(t, home, k, s) ==> t'[s].next == t[s].next
      {
        HopOn(t, t', home, h, c, e, p, k, s);
        assert s < |t| ==> LinksHop(t, t', h, c, e, p, s);
      }
      ChainStays(t, t', home, k);
    }
  }

  /** Slot s of the new table holds what slot `from` of the old one held. */
  ghost predicate SameElement<V>(t: seq<Bucket<V>>, from: nat, t': seq<Bucket<V>>, s: nat)
  {
    && from < |t| && s < |t'|
    && t[from].use && t'[s].use && t'[s].key == t[from].key && t'[s].val == t[from].val
  }

  /** One element has moved from slot c to the free slot e, all others are where they were. */
  ghost predicate Moved<V>(t: seq<Bucket<V>>, t': seq<Bucket<V>>, c: nat, e: nat)
  {
    && |t| == |t'| && c < |t| && e < |t| && c != e && !t[e].use
    && SameElement(t, c, t', e) && !t'[c].use
    && forall s :: 0 <= s < |t| && s != c && s != e ==>
         t'[s].use == t[s].use && t'[s].key == t[s].key && t'[s].val == t[s].val
  }

  lemma MovedKeepsModel<V>(t: seq<Bucket<V>>, t': seq<Bucket<V>>, c: nat, e: nat)
    requires Moved(t, t', c, e) && Distinct(t)
    ensures Distinct(t') && Model(t') == Model(t)
  {
    forall r: nat, s: nat | r < |t| && s < |t| && t'[r].use && t'[s].use && t'[r].key == t'[s].key
      ensures r == s
    {
      var r0, s0 := if r == e then c else r, if s == e then c else s;
      assert t[r0].key == t[s0].key;
    }
    forall k: nat | k in Model(t)
      ensures k in Model(t') && Model(t')[k] == Model(t)[k]
    {
      var s := SlotOf(t, |t|, k);
      SlotInModel(t, |t|, s);
      SlotInModel(t', |t'|, if s == c then e else s);
    }
    forall k: nat | k in Model(t')
      ensures k in Model(t)
    {
      var s := SlotOf(t', |t'|, k);
      SlotInModel(t, |t|, if s == e then c else s);
    }
  }

  /** A hop keeps every chain and the map. */
  lemma HopKeeps<V>(t: seq<Bucket<V>>, t': seq<Bucket<V>>, home: Hash, h: nat, c: nat, e: nat, p: int)
    requires CanHop(t, home, h, c, e, p) && t' == Hop(t, h, c, e, p)
    ensures Moved(t, t', c, e)
    ensures Valid(t', home) && Model(t') == Model(t)
  {
    HopFits(t, home, h, c, e, p);
    assert Moved(t, t', c, e);
    MovedKeepsModel(t, t', c, e);
    forall k: nat | k < |t|
      ensures ChainOk(t', home, k)
    {
      HopChain(t, t', home, h, c, e, p, k);
    }
  }
}
