/** The boot-time allocator: sorted pools of address areas (balloc.c). */
module Balloc {

  import Mem
  import C = Common

  datatype Area = Area(addr: int, size: int) {
    function End(): int { addr + size }
  }

  /** Areas are not empty, in ascending order, and never touch. */
  ghost predicate Separated(s: seq<Area>) {
    && (forall i :: 0 <= i < |s| ==> s[i].size > 0)
    && (forall i, j {:trigger Apart(s, i, j)} :: 0 <= i < j < |s| ==> Apart(s, i, j))
  }

  ghost predicate Apart(s: seq<Area>, i: int, j: int) {
    0 <= i < |s| && 0 <= j < |s| && s[i].End() < s[j].addr
  }

  /** The address x is in the pool. */
  ghost predicate Has(s: seq<Area>, x: int) {
    exists i :: 0 <= i < |s| && s[i].addr <= x < s[i].End()
  }

  lemma Around(s: seq<Area>, mid: int)
    requires Separated(s) && 0 <= mid < |s|
    ensures forall i {:trigger s[i]} :: 0 <= i < mid ==> s[i].size > 0 && s[i].End() < s[mid].addr
    ensures forall i {:trigger s[i]} :: mid < i < |s| ==> s[i].size > 0 && s[mid].End() < s[i].addr
  {
    forall i | 0 <= i < mid ensures s[i].End() < s[mid].addr { assert Apart(s, i, mid); }
    forall i | mid < i < |s| ensures s[mid].End() < s[i].addr { assert Apart(s, mid, i); }
  }

  // ----- insertion and deletion on sequences -----

  ghost predicate LowerBound(s: seq<Area>, addr: int, k: int) {
    && 0 <= k <= |s|
    && (forall i :: 0 <= i < k ==> s[i].End() < addr)
    && (forall i :: k <= i < |s| ==> addr <= s[i].End())
  }

  ghost predicate UpperBound(s: seq<Area>, addr: int, k: int) {
    && 0 <= k <= |s|
    && (forall i :: 0 <= i < k ==> s[i].addr <= addr)
    && (forall i :: k <= i < |s| ==> addr < s[i].addr)
  }

  /** The area that an inserted range becomes, together with those it touches. */
  function Hull(s: seq<Area>, addr: int, end: int, first: int, last: int): Area
    requires 0 <= first <= last <= |s|
  {
    var a := if first != last && s[first].addr < addr then s[first].addr else addr;
    var e := if first != last && end < s[last - 1].End() then s[last - 1].End() else end;
    Area(a, e - a)
  }

  lemma HasConcat(a: seq<Area>, b: seq<Area>, x: int)
    ensures Has(a + b, x) <==> Has(a, x) || Has(b, x)
  {
    var c := a + b;
    if i :| 0 <= i < |a| && a[i].addr <= x < a[i].End() { assert c[i] == a[i]; }
    if i :| 0 <= i < |b| && b[i].addr <= x < b[i].End() { assert c[|a| + i] == b[i]; }
    if i :| 0 <= i < |c| && c[i].addr <= x < c[i].End() { assert c[i] == if i < |a| then a[i] else b[i - |a|]; }
  }

  /** The areas from `first` to `last` give way to the areas `m`. */
  function Spliced(s: seq<Area>, first: int, last: int, m: seq<Area>): seq<Area>
    requires 0 <= first <= last <= |s|
  {
    s[..first] + m + s[last..]
  }

  lemma SplicedHas(s: seq<Area>, first: int, last: int, m: seq<Area>, x: int)
    requires 0 <= first <= last <= |s|
    ensures Has(s, x) <==> Has(s[..first], x) || Has(s[first..last], x) || Has(s[last..], x)
    ensures Has(Spliced(s, first, last, m), x) <==> Has(s[..first], x) || Has(m, x) || Has(s[last..], x)
  {
    assert s == s[..first] + s[first..last] + s[last..];
    HasConcat(s[..first], s[first..last], x);
    HasConcat(s[..first] + s[first..last], s[last..], x);
    HasConcat(s[..first], m, x);
    HasConcat(s[..first] + m, s[last..], x);
  }

  lemma SplicedSeparated(s: seq<Area>, first: int, last: int, m: seq<Area>)
    requires 0 <= first <= last <= |s| && Separated(s) && Separated(m)
    requires m != [] ==>
             (first > 0 ==> s[first - 1].End() < m[0].addr) &&
             (last < |s| ==> m[|m| - 1].End() < s[last].addr)
    ensures Separated(Spliced(s, first, last, m))
  {
    var t := Spliced(s, first, last, m);
    var k := first + |m|;
    assert forall i :: 0 <= i < first ==> t[i] == s[i];
    assert forall i :: first <= i < k ==> t[i] == m[i - first];
    assert forall i :: k <= i < |t| ==> t[i] == s[i - k + last];
    forall i, j | 0 <= i < j < |t| ensures Apart(t, i, j) {
      if j < first { assert Apart(s, i, j); }
      else if j < k {
        if i < first {
          assert i < first - 1 ==> Apart(s, i, first - 1);
          assert j > first ==> Apart(m, 0, j - first);
        } else { assert Apart(m, i - first, j - first); }
      } else if i < first { assert Apart(s, i, j - k + last); }
      else if i < k {
        assert i < k - 1 ==> Apart(m, i - first, |m| - 1);
        assert j > k ==> Apart(s, last, j - k + last);
      } else { assert Apart(s, i - k + last, j - k + last); }
    }
  }

  lemma BoundsInOrder(s: seq<Area>, addr: int, end: int, first: int, last: int)
    requires Separated(s) && addr < end && LowerBound(s, addr, first) && UpperBound(s, end, last)
    ensures first <= last
  {
    assert last < |s| ==> end < s[last].addr < s[last].End();
  }

  lemma InsertIsUnion(s: seq<Area>, addr: int, end: int, first: int, last: int)
    requires Separated(s) && addr < end && LowerBound(s, addr, first) && UpperBound(s, end, last)
    ensures first <= last
    ensures var t := Spliced(s, first, last, [Hull(s, addr, end, first, last)]);
            Separated(t) && forall x :: Has(t, x) <==> Has(s, x) || addr <= x < end
  {
    BoundsInOrder(s, addr, end, first, last);
    var h := Hull(s, addr, end, first, last);
    if first < last { Around(s, first); Around(s, last - 1); }
    SplicedSeparated(s, first, last, [h]);
    forall x ensures Has(Spliced(s, first, last, [h]), x) <==> Has(s, x) || addr <= x < end {
      SplicedHas(s, first, last, [h], x);
      HullIsUnion(s, addr, end, first, last, x);
    }
  }

  lemma HullIsUnion(s: seq<Area>, addr: int, end: int, first: int, last: int, x: int)
    requires Separated(s) && addr < end && LowerBound(s, addr, first) && UpperBound(s, end, last) && first <= last
    ensures Has([Hull(s, addr, end, first, last)], x) <==> Has(s[first..last], x) || addr <= x < end
  {
    var m, h := s[first..last], Hull(s, addr, end, first, last);
    assert forall i :: 0 <= i < |m| ==> m[i] == s[first + i];
    assert Has([h], x) <==> h.addr <= x < h.End() by { assert [h][0] == h; }
    if h.addr <= x < h.End() && !(addr <= x < end) {
      if x < addr { assert m[0].addr <= x < m[0].End(); } else { assert m[|m| - 1].addr <= x < m[|m| - 1].End(); }
    }
    if i :| 0 <= i < |m| && m[i].addr <= x < m[i].End() { HullCovers(s, addr, end, first, last, first + i); }
  }

  lemma HullCovers(s: seq<Area>, addr: int, end: int, first: int, last: int, i: int)
    requires Separated(s) && 0 <= first <= i < last <= |s|
    ensures var h := Hull(s, addr, end, first, last); h.addr <= s[i].addr && s[i].End() <= h.End()
  {
    Around(s, i);
  }

  /** What is left of an area when [addr, end) is taken out of it. */
  function Pieces(area: Area, addr: int, end: int): seq<Area> {
    (if area.addr < addr then [Area(area.addr, addr - area.addr)] else [])
    + (if end < area.End() then [Area(end, area.End() - end)] else [])
  }

  lemma DeleteIsDifference(s: seq<Area>, addr: int, end: int, pos: int)
    requires Separated(s) && addr < end && 0 <= pos < |s| && s[pos].addr <= addr && end <= s[pos].End()
    ensures var t := Spliced(s, pos, pos + 1, Pieces(s[pos], addr, end));
            Separated(t) && forall x :: Has(t, x) <==> Has(s, x) && !(addr <= x < end)
  {
    var m := Pieces(s[pos], addr, end);
    PiecesFit(s, addr, end, pos);
    SplicedSeparated(s, pos, pos + 1, m);
    forall x ensures Has(Spliced(s, pos, pos + 1, m), x) <==> Has(s, x) && !(addr <= x < end) {
      DeleteAt(s, addr, end, pos, x);
    }
  }

  lemma PiecesFit(s: seq<Area>, addr: int, end: int, pos: int)
    requires Separated(s) && addr < end && 0 <= pos < |s| && s[pos].addr <= addr && end <= s[pos].End()
    ensures var m := Pieces(s[pos], addr, end);
            Separated(m) && (m != [] ==>
                (pos > 0 ==> s[pos - 1].End() < m[0].addr) && (pos + 1 < |s| ==> m[|m| - 1].End() < s[pos + 1].addr))
  {
    Around(s, pos);
  }

  lemma DeleteAt(s: seq<Area>, addr: int, end: int, pos: int, x: int)
    requires Separated(s) && addr < end && 0 <= pos < |s| && s[pos].addr <= addr && end <= s[pos].End()
    ensures Has(Spliced(s, pos, pos + 1, Pieces(s[pos], addr, end)), x) <==> Has(s, x) && !(addr <= x < end)
  {
    SplicedHas(s, pos, pos + 1, Pieces(s[pos], addr, end), x);
    PiecesAreDifference(s[pos], addr, end, x);
    assert s[pos..pos + 1] == [s[pos]];
    OutsideArea(s, pos, x);
  }

  lemma PiecesAreDifference(area: Area, addr: int, end: int, x: int)
    requires area.addr <= addr < end <= area.End()
    ensures Has(Pieces(area, addr, end), x) <==> Has([area], x) && !(addr <= x < end)
  {
    var m := Pieces(area, addr, end);
    assert Has([area], x) <==> area.addr <= x < area.End() by { assert [area][0] == area; }
    if area.addr <= x < addr { assert m[0] == Area(area.addr, addr - area.addr); }
    if end <= x < area.End() { assert m[|m| - 1] == Area(end, area.End() - end); }
  }

  /** An address of one area is in none of the areas before or after it. */
  lemma OutsideArea(s: seq<Area>, pos: int, x: int)
    requires Separated(s) && 0 <= pos < |s|
    ensures s[pos].addr <= x < s[pos].End() ==> !Has(s[..pos], x) && !Has(s[pos + 1..], x)
  {
    Around(s, pos);
  }

  // ----- the representation is unique -----

  /** A set of addresses has only one pool. */
  lemma {:induction false} OnePool(s: seq<Area>, t: seq<Area>)
    requires Separated(s) && Separated(t) && forall x :: Has(s, x) <==> Has(t, x)
    ensures s == t
    decreases |s|
  {
    if s == [] {
      if t != [] { assert Has(t, t[0].addr); }
    } else {
      assert Has(s, s[0].addr);
      SameFirst(s, t);
      forall x ensures Has(s[1..], x) <==> Has(t[1..], x) {
        SplicedHas(s, 0, 1, [], x);
        SplicedHas(t, 0, 1, [], x);
        OutsideArea(s, 0, x);
        OutsideArea(t, 0, x);
        assert s[..0] == t[..0] == [] && s[0..1] == [s[0]] == [t[0]] == t[0..1];
      }
      TailSeparated(s);
      TailSeparated(t);
      OnePool(s[1..], t[1..]);
      assert s == [s[0]] + s[1..] && t == [t[0]] + t[1..];
    }
  }

  lemma TailSeparated(s: seq<Area>)
    requires Separated(s) && s != []
    ensures Separated(s[1..])
  {
    forall i, j | 0 <= i < j < |s| - 1 ensures Apart(s[1..], i, j) { assert Apart(s, i + 1, j + 1); }
  }

  lemma SameFirst(s: seq<Area>, t: seq<Area>)
    requires Separated(s) && Separated(t) && s != [] && t != [] && forall x :: Has(s, x) <==> Has(t, x)
    ensures s[0] == t[0]
  {
    assert Has(s, s[0].addr) && Has(t, t[0].addr);
    Around(s, 0);
    Around(t, 0);
    assert s[0].addr == t[0].addr;
    FirstEnd(s, t);
    FirstEnd(t, s);
  }

  lemma FirstEnd(s: seq<Area>, t: seq<Area>)
    requires Separated(s) && Separated(t) && s != [] && t != [] && s[0].addr == t[0].addr && forall x ::
             Has(s, x) <==> Has(t, x)
    ensures s[0].End() <= t[0].End()
  {
    var x := t[0].End();
    assert s[0].addr <= x < s[0].End() ==> Has(s, x);
    Around(t, 0);
    assert !Has(t, x);
  }

  // ----- aligned allocation -----

  /** A multiple of 2^k: its k low bits are clear. */
  predicate Multiple(x: int, k: nat)
    decreases k
  {
    k == 0 || (x % 2 == 0 && Multiple(x / 2, k - 1))
  }

  /** It is one by arithmetic, too. */
  lemma {:induction false} MultipleExact(x: int, k: nat)
    ensures Multiple(x, k) <==> x % C.Pow2(k) == 0
    decreases k
  {
    if k > 0 {
      MultipleExact(x / 2, k - 1);
      C.DivideTwice(x, 2, C.Pow2(k - 1));
    }
  }

  /** ALIGN for the alignment 2^k. */
  function AlignUp(x: int, k: nat): int
    decreases k
  {
    if k == 0 then x else 2 * AlignUp((x + 1) / 2, k - 1)
  }

  /** It gives the least multiple from x on. */
  lemma {:induction false} AlignLeast(x: int, k: nat, y: int)
    ensures x <= AlignUp(x, k) && Multiple(AlignUp(x, k), k)
    ensures x <= y && Multiple(y, k) ==> AlignUp(x, k) <= y
    decreases k
  {
    if k > 0 { AlignLeast((x + 1) / 2, k - 1, y / 2); }
  }

  /** All the addresses of [a, a + size) are in the pool, a is aligned and the range lies in the window. */
  ghost predicate Fits(s: seq<Area>, low: int, high: int, size: int, k: nat, a: int) {
    Multiple(a, k) && low <= a && a + size <= high && forall x :: a <= x < a + size ==> Has(s, x)
  }

  ghost predicate FitsIn(area: Area, low: int, high: int, size: int, k: nat, a: int) {
    Multiple(a, k) && low <= a && a + size <= high && area.addr <= a && a + size <= area.End()
  }

  /** Areas never touch, so an unbroken range of addresses lies in one of them. */
  lemma {:induction false} InOneArea(s: seq<Area>, a: int, size: int) returns (i: int)
    requires Separated(s) && 0 < size && forall x :: a <= x < a + size ==> Has(s, x)
    ensures 0 <= i < |s| && s[i].addr <= a && a + size <= s[i].End()
    decreases size
  {
    assert Has(s, a + size - 1);
    i :| 0 <= i < |s| && s[i].addr <= a + size - 1 < s[i].End();
    if size > 1 {
      var j := InOneArea(s, a, size - 1);
      if j != i { Touching(s, i, j, a + size - 1); }
    }
  }

  /** Two neighbouring addresses are not in different areas. */
  lemma Touching(s: seq<Area>, i: int, j: int, x: int)
    requires Separated(s) && 0 <= i < |s| && 0 <= j < |s| && s[i].addr <= x < s[i].End() &&
             s[j].addr <= x - 1 < s[j].End()
    ensures i == j
  {
    Around(s, j);
  }

  lemma FitsInFits(s: seq<Area>, i: int, low: int, high: int, size: int, k: nat, a: int)
    requires 0 <= i < |s| && FitsIn(s[i], low, high, size, k, a)
    ensures Fits(s, low, high, size, k, a)
  {
    forall x | a <= x < a + size ensures Has(s, x) { assert s[i].addr <= x < s[i].End(); }
  }

  /** Some area overlaps or touches the range. */
  ghost predicate Touches(s: seq<Area>, begin: int, end: int) {
    exists i :: 0 <= i < |s| && s[i].addr <= end && begin <= s[i].End()
  }

  /** Some area sticks out of the range on both sides. */
  ghost predicate Splits(s: seq<Area>, begin: int, end: int) {
    exists i :: 0 <= i < |s| && s[i].addr < begin && end < s[i].End()
  }

  lemma TouchedBetween(s: seq<Area>, begin: int, end: int, first: int, last: int)
    requires Touches(s, begin, end) && LowerBound(s, begin, first) && UpperBound(s, end, last)
    ensures first < last
  {
    var i :| 0 <= i < |s| && s[i].addr <= end && begin <= s[i].End();
  }

  class Pool {
    const areas: array<Area>
    var size: int

    ghost predicate Valid()
      reads this, areas
    {
      0 <= size <= areas.Length && Separated(areas[..size])
    }

    constructor (max: nat)
      ensures Valid() && fresh(areas) && areas.Length == max && areas[..size] == []
    {
      areas := new Area[max](i => Area(0, 0));
      size := 0;
    }

    /** balloc_lower_bound: the first area that does not end before the address. */
    method FindLower(addr: int) returns (left: int)
      requires Valid()
      ensures LowerBound(areas[..size], addr, left)
    {
      left := 0;
      var right := size;
      while left < right
        invariant 0 <= left <= right <= size
        invariant forall i :: 0 <= i < left ==> areas[i].End() < addr
        invariant forall i :: right <= i < size ==> addr <= areas[i].End()
      {
        var mid := left + (right - left) / 2;
        assert areas[mid] == areas[..size][mid];
        if areas[mid].End() < addr {
          Around(areas[..size], mid);
          left := mid + 1;
        } else {
          Around(areas[..size], mid);
          right := mid;
        }
      }
    }

    /** balloc_upper_bound: the first area that begins after the address. */
    method FindUpper(addr: int) returns (left: int)
      requires Valid()
      ensures UpperBound(areas[..size], addr, left)
    {
      left := 0;
      var right := size;
      while left < right
        invariant 0 <= left <= right <= size
        invariant forall i :: 0 <= i < left ==> areas[i].addr <= addr
        invariant forall i :: right <= i < size ==> addr < areas[i].addr
      {
        var mid := left + (right - left) / 2;
        assert areas[mid] == areas[..size][mid];
        Around(areas[..size], mid);
        if areas[mid].addr > addr {
          right := mid;
        } else {
          left := mid + 1;
        }
      }
    }

    /** One area takes the place of those from `first` to `last`, with the areas behind them moved up or down. */
    method Put(first: int, last: int, area: Area)
      requires 0 <= first <= last <= size <= areas.Length && (first < last || size < areas.Length)
      modifies this`size, areas
      ensures 0 <= size <= areas.Length && areas[..size] == Spliced(old(areas[..size]), first, last, [area])
    {
      ghost var n, z := size - last, size;
      if first + 1 != last { Mem.Move(areas, first + 1, last, size - last); }
      assert Mem.Moved(old(areas[..]), areas[..], first + 1, last, n);
      PutResult(old(areas[..]), areas[..], z, first, last, area);
      ghost var t := areas[..];
      areas[first] := area;
      size := size - (last - first - 1);
      assert areas[..] == t[first := area];
    }

    /** balloc_pool_insert: exactly the union of the pool and the range; a slot is needed only when nothing merges. */
    method Insert(addr: int, length: int)
      requires Valid() && 0 < length && (size < areas.Length || Touches(areas[..size], addr, addr + length))
      modifies this`size, areas
      ensures Valid() && forall x :: Has(areas[..size], x) <==> old(Has(areas[..size], x)) || addr <= x < addr + length
    {
      ghost var s := areas[..size];
      var begin, end := addr, addr + length;
      var first := FindLower(addr);
      var last := FindUpper(end);
      InsertIsUnion(s, addr, end, first, last);
      if Touches(s, addr, end) { TouchedBetween(s, addr, end, first, last); }
      if first != last {
        if areas[first].addr < begin { begin := areas[first].addr; }
        if end < areas[last - 1].End() { end := areas[last - 1].End(); }
      }
      assert Area(begin, end - begin) == Hull(s, addr, addr + length, first, last);
      ghost var t := Spliced(s, first, last, [Area(begin, end - begin)]);
      Put(first, last, Area(begin, end - begin));
      assert areas[..size] == t;
    }

    method RemoveAt(p: int)
      requires 0 <= p < size <= areas.Length
      modifies this`size, areas
      ensures 0 <= size == old(size) - 1 && areas[..size] == Spliced(old(areas[..size]), p, p + 1, [])
    {
      Mem.Move(areas, p, p + 1, size - p - 1);
      size := size - 1;
    }

    method SplitAt(p: int, a: Area, b: Area)
      requires 0 <= p < size < areas.Length
      modifies this`size, areas
      ensures size == old(size) + 1 <= areas.Length && areas[..size] == Spliced(old(areas[..size]), p, p + 1, [a, b])
    {
      Mem.Move(areas, p + 2, p + 1, size - p - 1);
      areas[p + 1] := b;
      areas[p] := a;
      size := size + 1;
    }

    /** The rest of balloc_pool_delete once the area is found. */
    method Cut(p: int, addr: int, length: int)
      requires 0 <= p < size <= areas.Length && 0 < length && areas[p].addr <= addr && addr + length <= areas[p].End()
      requires size < areas.Length || !(areas[p].addr < addr && addr + length < areas[p].End())
      modifies this`size, areas
      ensures 0 <= size <= areas.Length && size <= old(size) + 1
      ensures size > old(size) ==>
              old(areas[p]).addr < addr && areas[p] == Area(old(areas[p]).addr, addr - old(areas[p]).addr)
      ensures areas[..size] == Spliced(old(areas[..size]), p, p + 1, Pieces(old(areas[p]), addr, addr + length))
    {
      var area := areas[p];
      if area.addr == addr && area.size > length {
        areas[p] := Area(area.addr + length, area.size - length);
      } else if area.End() == addr + length && area.size > length {
        areas[p] := Area(area.addr, area.size - length);
      } else if area.addr == addr && area.size == length {
        RemoveAt(p);
      } else {
        SplitAt(p, Area(area.addr, addr - area.addr), Area(addr + length, area.End() - (addr + length)));
      }
    }

    /**
     balloc_pool_delete: exactly the difference, for a range inside the pool; a slot is needed only to split an
     area.
     */
    method Delete(addr: int, length: int)
      requires Valid() && 0 < length && (size < areas.Length || !Splits(areas[..size], addr, addr + length))
      requires forall x :: addr <= x < addr + length ==> Has(areas[..size], x)
      modifies this`size, areas
      ensures Valid() && forall x :: Has(areas[..size], x) <==>
              old(Has(areas[..size], x)) && !(addr <= x < addr + length)
      ensures size <= old(size) + 1 && (size > old(size) ==> Has(areas[..size], addr - 1))
    {
      ghost var s := areas[..size];
      ghost var pos := InOneArea(s, addr, length);
      var p := FindLower(addr);
      Located(s, addr, pos, p);
      DeleteIsDifference(s, addr, addr + length, pos);
      ghost var t := Spliced(s, pos, pos + 1, Pieces(s[pos], addr, addr + length));
      assert areas[p] == s[p];
      Cut(p, addr, length);
      assert areas[..size] == t;
      if size > |s| { assert areas[..size][p] == areas[p]; }
    }

    /** The start of the least fitting range inside one area, as balloc_alloc_aligned_from_pool computes it. */
    method TryArea(area: Area, low: int, high: int, length: int, k: nat) returns (ok: bool, start: int)
      requires 0 < length
      ensures ok ==> FitsIn(area, low, high, length, k, start) && forall a ::
              FitsIn(area, low, high, length, k, a) ==> start <= a
      ensures !ok ==> forall a :: !FitsIn(area, low, high, length, k, a)
    {
      var begin, end := area.addr, area.End();
      if begin < low { begin := low; }
      if end > high { end := high; }
      start := AlignUp(begin, k);
      AlignLeast(begin, k, begin);
      forall a | FitsIn(area, low, high, length, k, a) ensures start <= a { AlignLeast(begin, k, a); }
      ok := !(start >= end || end - start < length);
    }

    /**
     balloc_alloc_aligned: the least aligned range of the window whose addresses are all free, or -1 when there
     is none.
     */
    method Alloc(low: int, high: int, length: int, k: nat) returns (r: int)
      requires Valid() && 0 < length && 0 <= low && size < areas.Length
      modifies this`size, areas
      ensures Valid() && size <= old(size) + 1 && (size > old(size) ==> r != -1 && Has(areas[..size], r - 1))
      ensures r == -1 <==> forall a :: !old(Fits(areas[..size], low, high, length, k, a))
      ensures r == -1 ==> areas[..size] == old(areas[..size])
      ensures r != -1 ==> old(Fits(areas[..size], low, high, length, k, r))
      ensures r != -1 ==> forall a :: old(Fits(areas[..size], low, high, length, k, a)) ==> r <= a
      ensures r != -1 ==> forall x :: Has(areas[..size], x) <==> old(Has(areas[..size], x)) && !(r <= x < r + length)
    {
      r := -1;
      if low < high && high - low >= length {
        r := Search(low, high, length, k);
        if r != -1 { Delete(r, length); }
      }
    }

    method Search(low: int, high: int, length: int, k: nat) returns (r: int)
      requires Valid() && 0 < length && 0 <= low < high
      ensures r == -1 ==> forall a :: !Fits(areas[..size], low, high, length, k, a)
      ensures r != -1 ==> 0 <= r && Fits(areas[..size], low, high, length, k, r)
      ensures r != -1 ==> forall a :: Fits(areas[..size], low, high, length, k, a) ==> r <= a
    {
      ghost var s := areas[..size];
      var first := FindLower(low);
      var last := FindUpper(high);
      BoundsInOrder(s, low, high, first, last);
      var i := first;
      while i != last
        invariant first <= i <= last
        invariant forall j, a :: 0 <= j < i ==> !FitsIn(s[j], low, high, length, k, a)
      {
        var ok, start := TryArea(areas[i], low, high, length, k);
        if ok {
          FitsInFits(s, i, low, high, length, k, start);
          forall a | Fits(s, low, high, length, k, a) ensures start <= a {
            var j := InOneArea(s, a, length);
            assert FitsIn(s[j], low, high, length, k, a);
            Around(s, i);
          }
          return start;
        }
        i := i + 1;
      }
      forall a ensures !Fits(s, low, high, length, k, a) {
        if Fits(s, low, high, length, k, a) {
          var j := InOneArea(s, a, length);
          assert FitsIn(s[j], low, high, length, k, a);
          assert false;
        }
      }
      r := -1;
    }

    /** Giving back what was allocated restores the very same areas. */
    method AllocThenFree(low: int, high: int, length: int, k: nat)
      requires Valid() && 0 < length && 0 <= low && size < areas.Length
      modifies this`size, areas
      ensures Valid() && areas[..size] == old(areas[..size])
    {
      var r := Alloc(low, high, length, k);
      if r != -1 {
        if size == areas.Length {
          ghost var i :| 0 <= i < size && areas[..size][i].addr <= r - 1 < areas[..size][i].End();
        }
        Insert(r, length);
        OnePool(areas[..size], old(areas[..size]));
      }
    }
  }

  lemma PutResult(s: seq<Area>, t: seq<Area>, size: int, first: int, last: int, area: Area)
    requires 0 <= first <= last <= size <= |s| && first + 1 + size - last <= |s| &&
             Mem.Moved(s, t, first + 1, last, size - last)
    ensures t[first := area][..size - (last - first - 1)] == Spliced(s[..size], first, last, [area])
  {
    var n := size - last;
    assert t[..first] == t[..first + 1][..first] == s[..first];
    assert t[first := area][..first + 1 + n] == t[..first] + [area] + t[first + 1..first + 1 + n];
    assert s[..size][last..] == s[last..last + n];
  }

  /** Only the area itself can be the first that does not end before one of its addresses. */
  lemma Located(s: seq<Area>, addr: int, pos: int, p: int)
    requires Separated(s) && LowerBound(s, addr, p) && 0 <= pos < |s| && s[pos].addr <= addr < s[pos].End()
    ensures p == pos
  {
    Around(s, pos);
    assert p <= pos;
    var found := s[p];
  }
}