/** The capacity of a hopscotch table: a size rounded up to a power of two. */
module Capacity {

  const MIN_CAPACITY: bv64 := 256
  const MAX_POWER: bv64 := 0x8000_0000_0000_0000

  /** The least power of two that is not below size, nor below 256; 0 if 64 bits do not hold it. */
  predicate IsRoundedUp(size: bv64, r: bv64)
  {
    if size < MIN_CAPACITY then r == MIN_CAPACITY
    else if size > MAX_POWER then r == 0
    else r & (r - 1) == 0 && size <= r && r >> 1 < size
  }

  /** y is a run of ones from the lowest bit on, and the shortest that is not below x. */
  predicate IsFilled(x: bv64, y: bv64)
  {
    y & (y + 1) == 0 && y >= x && (x > 0 ==> y >> 1 < x)
  }

  method FillBelow(x: bv64) returns (y: bv64)
    ensures IsFilled(x, y)
  {
    y := x;
    y := y | (y >> 32);
    y := y | (y >> 16);
    y := y | (y >> 8);
    y := y | (y >> 4);
    y := y | (y >> 2);
    y := y | (y >> 1);
  }

  lemma NextOverflows(size: bv64, y: bv64)
    requires size > MAX_POWER && IsFilled(size - 1, y)
    ensures y + 1 == 0
  {
  }

  lemma NextIsPower(size: bv64, y: bv64)
    requires MIN_CAPACITY <= size <= MAX_POWER && IsFilled(size - 1, y)
    ensures (y + 1) & y == 0
  {
  }

  lemma HalfOfNext(y: bv64)
    requires y > 0 && y & (y + 1) == 0 && y + 1 != 0
    ensures (y + 1) >> 1 == (y >> 1) + 1
  {
  }

  lemma NextIsLeast(size: bv64, y: bv64)
    requires MIN_CAPACITY <= size && IsFilled(size - 1, y) && y + 1 != 0
    ensures size <= y + 1
    ensures (y + 1) >> 1 < size
  {
    HalfOfNext(y);
  }

  lemma NextFits(size: bv64, y: bv64)
    requires MIN_CAPACITY <= size <= MAX_POWER && IsFilled(size - 1, y)
    ensures y + 1 != 0
  {
  }

  lemma NextOfFilled(size: bv64, y: bv64)
    requires size >= MIN_CAPACITY && IsFilled(size - 1, y)
    ensures IsRoundedUp(size, y + 1)
  {
    if size > MAX_POWER {
      NextOverflows(size, y);
    } else {
      NextIsPower(size, y);
      NextFits(size, y);
      NextIsLeast(size, y);
    }
  }

  lemma RoundedUpMeans(size: bv64, r: bv64)
    requires IsRoundedUp(size, r)
    ensures size < 256 ==> r == 256
    ensures 256 <= size <= 0x8000_0000_0000_0000 ==> r & (r - 1) == 0 && size <= r && r >> 1 < size
    ensures size > 0x8000_0000_0000_0000 ==> r == 0
  {
  }

  method RoundUp(size: bv64) returns (r: bv64)
    ensures IsRoundedUp(size, r)
    ensures size < 256 ==> r == 256
    ensures 256 <= size <= 0x8000_0000_0000_0000 ==> r & (r - 1) == 0 && size <= r && r >> 1 < size
    ensures size > 0x8000_0000_0000_0000 ==> r == 0
  {
    if size < MIN_CAPACITY {
      r := MIN_CAPACITY;
    } else {
      r := FillBelow(size - 1);
      NextOfFilled(size, r);
      r := r + 1;
    }
    RoundedUpMeans(size, r);
  }

  lemma RoundedUpIsPositive(size: bv64, r: bv64)
    requires IsRoundedUp(size, r) && size <= MAX_POWER
    ensures r as nat > 0
  {
  }
}
