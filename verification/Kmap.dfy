/**
 The allocator of ranges for temporary kernel mappings (paging.c:395-483): ranges of an array carry
 their length in their first and last element, and free ranges are filed by size class in lists.
 */
module Kmap {

  import opened List
  import C = Common

  const KMAP_ORDERS := 16

  function Log2(pages: int): nat
    decreases pages
  {
    if pages <= 1 then 0 else 1 + Log2(pages / 2)
  }

  /** kmap_order. */
  function Order(pages: int): (k: nat)
    ensures k < KMAP_ORDERS
  {
    if Log2(pages) < KMAP_ORDERS - 1 then Log2(pages) else KMAP_ORDERS - 1
  }

  /** The class of a number of pages: its highest bit, up to the last class. */
  lemma {:induction false} OrderExact(pages: int)
    requires 0 < pages
    ensures C.Pow2(Log2(pages)) <= pages < 2 * C.Pow2(Log2(pages))
    ensures C.Pow2(Order(pages)) <= pages && (Order(pages) < KMAP_ORDERS - 1 ==> pages < 2 * C.Pow2(Order(pages)))
  {
    LogExact(pages);
    C.PowGrows(Order(pages), Log2(pages));
  }

  lemma {:induction false} LogExact(pages: int)
    requires 0 < pages
    ensures C.Pow2(Log2(pages)) <= pages < 2 * C.Pow2(Log2(pages))
  {
    if pages > 1 { LogExact(pages / 2); }
  }

  lemma {:induction false} OrderMonotone(a: int, b: int)
    requires a <= b
    ensures Log2(a) <= Log2(b) && Order(a) <= Order(b) < KMAP_ORDERS
    decreases b
  {
    if a > 1 { OrderMonotone(a / 2, b / 2); }
  }

  // ----- how the ranges tile the array -----

  ghost predicate Head(own: seq<int>, h: int) {
    0 <= h < |own| && own[h] == h
  }

  ghost predicate InRange(own: seq<int>, size: seq<int>, h: int, q: int) {
    Head(own, h) && h < |size| && h <= q < h + size[h]
  }

  /** own[p] is the first element of the range of p and size[own[p]] the length of that range. */
  ghost predicate Tiled(own: seq<int>, size: seq<int>) {
    && |own| == |size|
    && (forall p {:trigger own[p]} :: 0 <= p < |own| ==> InRange(own, size, own[p], p))
    && (forall h {:trigger Head(own, h)} :: Head(own, h) ==> 0 < size[h] && h + size[h] <= |own|)
    && (forall h, q {:trigger InRange(own, size, h, q)} :: InRange(own, size, h, q) ==> 0 <= q < |own| && own[q] == h)
  }

  /** The range that ends where range `r` begins. */
  lemma Before(own: seq<int>, size: seq<int>, r: int)
    requires Tiled(own, size) && Head(own, r) && r > 0
    ensures var g := own[r - 1]; Head(own, g) && g < r && g + size[g] == r
  {
    var g := own[r - 1];
    assert InRange(own, size, g, r - 1);
    assert !InRange(own, size, g, r);
  }

  /** A range begins where range `r` ends. */
  lemma After(own: seq<int>, size: seq<int>, r: int)
    requires Tiled(own, size) && Head(own, r)
    ensures 0 < size[r] && r + size[r] <= |own| && (r + size[r] < |own| ==> Head(own, r + size[r]))
  {
    var b := r + size[r];
    if b < |own| {
      assert InRange(own, size, r, b - 1);
      assert own[b] < b ==> InRange(own, size, own[b], b - 1);
      assert !InRange(own, size, r, b);
    }
  }

  ghost function MergedOwn(own: seq<int>, a: int, b: int): (r: seq<int>)
    ensures |r| == |own|
  {
    seq(|own|, p requires 0 <= p < |own| => if own[p] == b then a else own[p])
  }

  lemma MergeTiled(own: seq<int>, size: seq<int>, a: int, b: int)
    requires Tiled(own, size) && Head(own, a) && Head(own, b) && a + size[a] == b
    ensures Tiled(MergedOwn(own, a, b), size[a := size[a] + size[b]])
  {
    var own', size' := MergedOwn(own, a, b), size[a := size[a] + size[b]];
    forall p | 0 <= p < |own| ensures InRange(own', size', own'[p], p) {
      assert InRange(own, size, own[p], p);
    }
    forall h, q {:trigger InRange(own', size', h, q)} | InRange(own', size', h, q)
        ensures 0 <= q < |own| && own'[q] == h {
      if h == a {
        assert InRange(own, size, a, q) || InRange(own, size, b, q);
      } else {
        assert InRange(own, size, h, q);
      }
    }
  }

  ghost function SplitOwn(own: seq<int>, a: int, m: int): (r: seq<int>)
    ensures |r| == |own|
  {
    seq(|own|, p requires 0 <= p < |own| => if own[p] == a && a + m <= p then a + m else own[p])
  }

  lemma SplitTiled(own: seq<int>, size: seq<int>, a: int, m: int)
    requires Tiled(own, size) && Head(own, a) && 0 < m < size[a]
    ensures a + m < |own| && Tiled(SplitOwn(own, a, m), size[a := m][a + m := size[a] - m])
  {
    var own', size' := SplitOwn(own, a, m), size[a := m][a + m := size[a] - m];
    assert InRange(own, size, a, a + m);
    forall p | 0 <= p < |own| ensures InRange(own', size', own'[p], p) {
      assert InRange(own, size, own[p], p);
    }
    forall h, q {:trigger InRange(own', size', h, q)} | InRange(own', size', h, q)
        ensures 0 <= q < |own| && own'[q] == h {
      if h == a || h == a + m {
        assert InRange(own, size, a, q);
      } else {
        assert InRange(own, size, h, q);
      }
    }
  }

  /** A run of free elements lies in one range when no two neighbours are free. */
  lemma {:induction false} RunInside(own: seq<int>, size: seq<int>, free: set<int>, p: int, m: int)
    requires Tiled(own, size) && Spaced(own, size, free) && 0 <= p && 0 < m && p + m <= |own|
    requires forall q :: p <= q < p + m ==> own[q] in free
    ensures own[p + m - 1] == own[p]
    decreases m
  {
    if m > 1 {
      RunInside(own, size, free, p, m - 1);
      var q := p + m - 1;
      var g := own[q - 1];
      assert InRange(own, size, g, q - 1) && InRange(own, size, own[q], q);
      assert own[q] < q ==> InRange(own, size, own[q], q - 1);
      assert Parted(size, free, g);
      if own[q] != g {
        Before(own, size, q);
      }
    }
  }

  /** No free range is followed by a free range. */
  ghost predicate Spaced(own: seq<int>, size: seq<int>, free: set<int>)
    requires |size| == |own|
  {
    && (forall h {:trigger h in free} :: h in free ==> Head(own, h))
    && (forall h {:trigger Parted(size, free, h)} :: h in free ==> Parted(size, free, h))
  }

  ghost predicate Parted(size: seq<int>, free: set<int>, h: int) {
    0 <= h < |size| && h + size[h] !in free
  }

  /** Except for the range `x`, every range has its length in its first and its last element. */
  ghost predicate Tagged(len: seq<int>, own: seq<int>, size: seq<int>, x: int) {
    && |len| == |own| == |size|
    && forall h {:trigger Head(own, h)} :: Head(own, h) && h != x ==>
         len[h] == size[h] && 0 < size[h] && h + size[h] <= |len| && len[h + size[h] - 1] == size[h]
  }

  /** A range other than `x` is free exactly when its first element is not linked to itself. */
  ghost predicate Flagged(next: seq<int>, own: seq<int>, free: set<int>, x: int) {
    && |own| <= |next|
    && forall h {:trigger Head(own, h)} :: Head(own, h) && h != x ==> (h in free <==> next[h] != h)
  }

  /** The lists hold the free ranges, each in the list of its size class. */
  ghost predicate Filed(lists: map<int, seq<int>>, size: seq<int>, free: set<int>) {
    && (forall k {:trigger k in lists} :: k in lists <==> |size| <= k < |size| + KMAP_ORDERS)
    && (forall k, h {:trigger FiledAt(lists, size, k, h)} :: FiledAt(lists, size, k, h) <==>
        h in free && Class(size, k, h))
    && (forall h {:trigger h in free} :: h in free ==> 0 <= h < |size|)
  }

  ghost predicate FiledAt(lists: map<int, seq<int>>, size: seq<int>, k: int, h: int) {
    k in lists && h in lists[k]
  }

  ghost predicate Class(size: seq<int>, k: int, h: int) {
    0 <= h < |size| && k == |size| + Order(size[h])
  }

  lemma ListedOnce(lists: map<int, seq<int>>, k: int, i: int)
    requires Apart(lists) && k in lists && 0 <= i < |lists[k]|
    ensures forall g, y {:trigger y in lists[g]} :: g in lists ==>
              (y in lists[k := Removed(lists[k], i)][g] <==> y in lists[g] && y != lists[k][i])
  {
    var x := lists[k][i];
    forall g, y {:trigger y in lists[g]} | g in lists
      ensures y in lists[k := Removed(lists[k], i)][g] <==> y in lists[g] && y != x
    {
      assert Place(k, lists[k], i + 1) == x;
      if y in lists[g] {
        var j :| 0 <= j < |lists[g]| && lists[g][j] == y;
        assert Place(g, lists[g], j + 1) == y;
        if g == k && j > i { assert Removed(lists[k], i)[j - 1] == y; }
        if g == k && j < i { assert Removed(lists[k], i)[j] == y; }
      }
      if g == k && y in Removed(lists[k], i) {
        var j :| 0 <= j < |lists[k]| && j != i && lists[k][j] == y;
        assert Place(k, lists[k], j + 1) == y;
      }
    }
  }

  lemma RemoveFiled(lists: map<int, seq<int>>, size: seq<int>, free: set<int>, k: int, i: int)
    requires Apart(lists) && Filed(lists, size, free) && k in lists && 0 <= i < |lists[k]|
    ensures Filed(lists[k := Removed(lists[k], i)], size, free - {lists[k][i]})
  {
    ListedOnce(lists, k, i);
    var h, lists' := lists[k][i], lists[k := Removed(lists[k], i)];
    forall g, y {:trigger FiledAt(lists', size, g, y)} ensures FiledAt(lists', size, g, y) <==>
        y in free - {h} && Class(size, g, y) {
      assert FiledAt(lists, size, g, y) <==> y in free && Class(size, g, y);
      assert g in lists ==> (y in lists'[g] <==> y in lists[g] && y != h);
    }
  }

  lemma AddFiled(lists: map<int, seq<int>>, size: seq<int>, free: set<int>, h: int)
    requires Filed(lists, size, free) && 0 <= h < |size|
    ensures var k := |size| + Order(size[h]); k in lists && Filed(lists[k := [h] + lists[k]], size, free + {h})
  {
    var k := |size| + Order(size[h]);
    var lists' := lists[k := [h] + lists[k]];
    forall g, y {:trigger FiledAt(lists', size, g, y)} ensures FiledAt(lists', size, g, y) <==>
        y in free + {h} && Class(size, g, y) {
      assert FiledAt(lists, size, g, y) <==> y in free && Class(size, g, y);
    }
  }

  /** Filing looks at the sizes of the free ranges only. */
  lemma ResizeFiled(lists: map<int, seq<int>>, size: seq<int>, free: set<int>, size': seq<int>)
    requires Filed(lists, size, free) && |size'| == |size| && forall h :: h in free ==> size'[h] == size[h]
    ensures Filed(lists, size', free)
  {
    forall g, y {:trigger FiledAt(lists, size', g, y)} ensures FiledAt(lists, size', g, y) <==>
        y in free && Class(size', g, y) {
      assert FiledAt(lists, size, g, y) <==> y in free && Class(size, g, y);
    }
  }

  /** The ranges and what their elements say, except for the range `x`, which is not free. */
  ghost predicate Sane(len: seq<int>, next: seq<int>, own: seq<int>, size: seq<int>, free: set<int>, x: int) {
    && Tiled(own, size) && Tagged(len, own, size, x) && Flagged(next, own, free, x) && Spaced(own, size, free) &&
        x !in free
  }

  ghost predicate NextKept(next: seq<int>, next': seq<int>, own: seq<int>, free: set<int>, free': set<int>) {
    && |own| <= |next| == |next'|
    && (forall y {:trigger next'[y]} :: 0 <= y < |own| && y !in free ==> next'[y] == next[y])
    && (forall y {:trigger next'[y]} :: 0 <= y < |own| && y in free' ==> next'[y] != y)
  }

  /** One of two neighbours is the hole, the other is free: together they are the hole. */
  lemma Join(len: seq<int>, next: seq<int>, next': seq<int>, own: seq<int>, size: seq<int>, free: set<int>, a: int,
             b: int, x: int, f: int)
    requires Sane(len, next, own, size, free, x) && Head(own, a) && Head(own, b) && a + size[a] == b
    requires f in free && ((x == a && f == b) || (x == b && f == a))
    requires NextKept(next, next', own, free, free - {f})
    ensures Sane(len, next', MergedOwn(own, a, b), size[a := size[a] + size[b]], free - {f}, a)
    ensures Kept(own, size, free, x, MergedOwn(own, a, b), size[a := size[a] + size[b]], free - {f}, a)
  {
    var own', size' := MergedOwn(own, a, b), size[a := size[a] + size[b]];
    MergeTiled(own, size, a, b);
    JoinHeads(own, size, a, b);
    assert Kept(own, size, free, x, own', size', free - {f}, a);
    JoinSpaced(own, size, free, a, b, f);
  }

  /** The hole becomes a free range when its tags are right and its neighbours are not free. */
  lemma FillHole(len: seq<int>, next: seq<int>, next': seq<int>, own: seq<int>, size: seq<int>, free: set<int>, q: int)
    requires Sane(len, next, own, size, free, q) && Head(own, q) && NextKept(next, next', own, free + {q}, free + {q})
    requires (q > 0 ==> own[q - 1] !in free) && q + size[q] !in free
    ensures 0 < size[q] && q + size[q] <= |len|
    ensures Sane(len[q := size[q]][q + size[q] - 1 := size[q]], next', own, size, free + {q}, -1)
  {
    var m := size[q];
    var len' := len[q := m][q + m - 1 := m];
    forall h {:trigger Head(own, h)} | Head(own, h) ensures len'[h] == size[h] && len'[h + size[h] - 1] == size[h] {
      if h != q {
        assert InRange(own, size, q, q + m - 1) && InRange(own, size, h, h) &&
               InRange(own, size, h, h + size[h] - 1) && InRange(own, size, q, q);
      }
    }
    forall h | h in free + {q} ensures Parted(size, free + {q}, h) {
      if h != q {
        assert Parted(size, free, h);
        assert h + size[h] == q ==> InRange(own, size, h, q - 1);
      }
    }
  }

  lemma KeptTrans(own0: seq<int>, size0: seq<int>, free0: set<int>, r0: int, own1: seq<int>, size1: seq<int>,
                  free1: set<int>, r1: int,
                  own2: seq<int>, size2: seq<int>, free2: set<int>, r2: int)
    requires Kept(own0, size0, free0, r0, own1, size1, free1, r1) &&
             Kept(own1, size1, free1, r1, own2, size2, free2, r2)
    ensures Kept(own0, size0, free0, r0, own2, size2, free2, r2)
  {
    forall p | 0 <= p < |own0| ensures SameElement(own0, free0, r0, own2, free2, r2, p) {
      assert SameElement(own0, free0, r0, own1, free1, r1, p) && SameElement(own1, free1, r1, own2, free2, r2, p);
    }
    forall h ensures SameRange(own0, size0, free0, r0, own2, size2, free2, r2, h) {
      assert SameRange(own0, size0, free0, r0, own1, size1, free1, r1, h) &&
             SameRange(own1, size1, free1, r1, own2, size2, free2, r2, h);
    }
  }

  lemma JoinHeads(own: seq<int>, size: seq<int>, a: int, b: int)
    requires Tiled(own, size) && Head(own, a) && Head(own, b) && a < b
    ensures forall h {:trigger Head(own, h)} {:trigger Head(MergedOwn(own, a, b), h)} ::
            Head(MergedOwn(own, a, b), h) <==> Head(own, h) && h != b
  {
  }

  /** The range before a free range is not free. */
  lemma JoinLeft(own: seq<int>, size: seq<int>, free: set<int>, a: int, b: int)
    requires Tiled(own, size) && Spaced(own, size, free) && Head(own, a) && Head(own, b) && a < b && a in free
    ensures a > 0 ==> MergedOwn(own, a, b)[a - 1] !in free - {a}
  {
    if a > 0 {
      Before(own, size, a);
      assert own[a - 1] in free ==> Parted(size, free, own[a - 1]);
    }
  }

  lemma JoinSpaced(own: seq<int>, size: seq<int>, free: set<int>, a: int, b: int, f: int)
    requires Tiled(own, size) && Spaced(own, size, free) && Head(own, a) && Head(own, b) && a < b && (f == a || f == b)
    requires (f == a && b !in free) || (f == b && a !in free)
    ensures Spaced(MergedOwn(own, a, b), size[a := size[a] + size[b]], free - {f})
  {
    JoinHeads(own, size, a, b);
    forall h | h in free - {f} ensures Parted(size[a := size[a] + size[b]], free - {f}, h) {
      assert Parted(size, free, h);
    }
  }

  class Kmap {
    const links: Lists
    const len: array<int>
    ghost var own: seq<int>
    ghost var size: seq<int>
    ghost var free: set<int>

    ghost predicate Listing()
      reads this, links, links.next, links.prev
    {
      links.Valid() && links.next.Length == len.Length + KMAP_ORDERS && |size| == len.Length &&
          Filed(links.lists, size, free)
    }

    /** The invariant, except for the tags, the flag and the neighbours of the range `x`, which is not free. */
    ghost predicate Hole(x: int)
      reads this, len, links, links.next, links.prev
    {
      && len != links.next && len != links.prev && Listing() && |own| == len.Length
      && Sane(len[..], links.next[..], own, size, free, x)
    }

    ghost predicate Valid()
      reads this, len, links, links.next, links.prev
    {
      Hole(-1)
    }

    ghost predicate Free(p: int)
      reads this
    {
      0 <= p < |own| && own[p] in free
    }

    /** An allocated range. */
    ghost predicate Busy(h: int)
      reads this
    {
      Head(own, h) && h !in free
    }

    /** The cell of an element that is not a free range is on no list. */
    lemma NotFiled(y: int)
      requires Listing() && 0 <= y < len.Length && y !in free
      ensures Loose(links.lists, y)
    {
      forall k, i | k in links.lists && 0 <= i <= |links.lists[k]| ensures Place(k, links.lists[k], i) != y {
        if i > 0 { assert links.lists[k][i - 1] in links.lists[k]; assert FiledAt(links.lists, size, k,
            links.lists[k][i - 1]); }
      }
    }

    lemma FreeLinked()
      requires Listing()
      ensures forall y {:trigger links.next[y]} :: 0 <= y < len.Length && y in free ==> links.next[y] != y
    {
      forall y | 0 <= y < len.Length && y in free ensures links.next[y] != y {
        assert FiledAt(links.lists, size, |size| + Order(size[y]), y);
        links.MemberLinked(|size| + Order(size[y]), y);
      }
    }

    /** Take a free range off its list; its first element keeps looking free. */
    method Unfile(h: int)
      requires Listing() && h in free && |own| == len.Length
      modifies this`free, links, links.next, links.prev
      ensures Listing() && free == old(free) - {h} &&
              NextKept(old(links.next[..]), links.next[..], own, old(free), free)
    {
      ghost var k := |size| + Order(size[h]);
      assert FiledAt(links.lists, size, k, h);
      ghost var i :| 0 <= i < |links.lists[k]| && links.lists[k][i] == h;
      RemoveFiled(links.lists, size, free, k, i);
      forall y | 0 <= y < len.Length && y !in free ensures Loose(links.lists, y) { NotFiled(y); }
      links.Del(h, k, i);
      free := free - {h};
      FreeLinked();
    }

    /** Put the range `h` on the list of its size class. */
    method File(h: int, pages: int)
      requires Listing() && 0 <= h < len.Length && h !in free && size[h] == pages && |own| == len.Length
      modifies this`free, links, links.next, links.prev
      ensures Listing() && free == old(free) + {h} &&
              NextKept(old(links.next[..]), links.next[..], own, old(free) + {h}, free)
    {
      forall y | 0 <= y < len.Length && y !in free ensures Loose(links.lists, y) { NotFiled(y); }
      AddFiled(links.lists, size, free, h);
      links.Add(h, len.Length + Order(pages));
      free := free + {h};
      FreeLinked();
    }

    /** The first call of kmap_free_range makes the whole array one free range. */
    constructor (pages: nat)
      requires 0 < pages
      ensures Valid() && len.Length == pages && forall p :: 0 <= p < pages ==> Free(p)
    {
      links := new Lists(pages + KMAP_ORDERS, pages);
      len := new int[pages](i => 0);
      own, size, free := seq(pages, _ => 0), seq(pages, _ => pages), {};
      new;
      FreeRange(0, pages);
    }

    /** kmap_free_range, first part: a free range before `r` joins it. */
    method AbsorbPrev(r: int, pages: int) returns (r': int, pages': int)
      requires Hole(r) && Head(own, r) && size[r] == pages
      modifies this`own, this`size, this`free, links, links.next, links.prev
      ensures Hole(r') && Head(own, r') && size[r'] == pages' &&
              Kept(old(own), old(size), old(free), r, own, size, free, r')
      ensures r' > 0 ==> own[r' - 1] !in free
    {
      r', pages' := r, pages;
      if r > 0 {
        Before(own, size, r);
        assert Head(own, own[r - 1]);
        var prev := r - len[r - 1];
        if !links.Empty(prev) {
          pages' := pages + len[prev];
          JoinPrev(prev, r);
          r' := prev;
        }
      }
    }

    method JoinPrev(prev: int, r: int)
      requires Hole(r) && Head(own, r) && Head(own, prev) && prev + size[prev] == r && prev in free
      modifies this`own, this`size, this`free, links, links.next, links.prev
      ensures Hole(prev) && Head(own, prev) && size[prev] == old(size)[prev] + old(size)[r]
      ensures Kept(old(own), old(size), old(free), r, own, size, free, prev)
      ensures prev > 0 ==> own[prev - 1] !in free
    {
      JoinLeft(own, size, free, prev, r);
      Absorb(prev, prev, r);
      Join(old(len[..]), old(links.next[..]), links.next[..], old(own), old(size), old(free), prev, r, r, prev);
      assert len[..] == old(len[..]);
    }

    /** The free range `f`, one of `a` and `b`, leaves its list, and `b` becomes part of `a`. */
    method Absorb(f: int, ghost a: int, ghost b: int)
      requires Listing() && |own| == len.Length && Head(own, a) && Head(own, b) && f in free && (f == a || a !in free)
      modifies this`own, this`size, this`free, links, links.next, links.prev
      ensures own == MergedOwn(old(own), a, b) && size == old(size)[a := old(size)[a] + old(size)[b]] &&
              free == old(free) - {f}
      ensures Listing() && NextKept(old(links.next[..]), links.next[..], own, old(free), free)
    {
      Unfile(f);
      Merge(a, b);
    }

    ghost method Merge(a: int, b: int)
      requires Listing() && |own| == len.Length && Head(own, a) && Head(own, b) && a !in free
      modifies this`own, this`size
      ensures own == MergedOwn(old(own), a, b) && size == old(size)[a := old(size)[a] + old(size)[b]]
      ensures Listing()
    {
      ResizeFiled(links.lists, size, free, size[a := size[a] + size[b]]);
      own, size := MergedOwn(own, a, b), size[a := size[a] + size[b]];
    }

    /** kmap_free_range, second part: a free range after `r` joins it. */
    method AbsorbNext(r: int, pages: int) returns (pages': int)
      requires Hole(r) && Head(own, r) && size[r] == pages && (r > 0 ==> own[r - 1] !in free)
      modifies this`own, this`size, this`free, links, links.next, links.prev
      ensures Hole(r) && Head(own, r) && size[r] == pages' &&
              Kept(old(own), old(size), old(free), r, own, size, free, r)
      ensures (r > 0 ==> own[r - 1] !in free) && r + pages' !in free
    {
      pages' := pages;
      After(own, size, r);
      if r + pages < len.Length {
        var next := r + pages;
        assert Head(own, next);
        if !links.Empty(next) {
          pages' := pages + len[next];
          JoinNext(r, next);
        }
      }
    }

    method JoinNext(r: int, next: int)
      requires Hole(r) && Head(own, r) && Head(own, next) && r + size[r] == next && next in free &&
               (r > 0 ==> own[r - 1] !in free)
      modifies this`own, this`size, this`free, links, links.next, links.prev
      ensures Hole(r) && Head(own, r) && size[r] == old(size)[r] + old(size)[next] && r + size[r] !in free
      ensures Kept(old(own), old(size), old(free), r, own, size, free, r)
      ensures r > 0 ==> own[r - 1] !in free
    {
      assert Parted(size, free, next);
      Absorb(next, r, next);
      Join(old(len[..]), old(links.next[..]), links.next[..], old(own), old(size), old(free), r, next, r, next);
      assert len[..] == old(len[..]);
      assert Sane(len[..], links.next[..], own, size, free, r);
    }

    /** kmap_free_range: the range becomes free and joins its free neighbours, whatever stale links they carry. */
    method FreeRange(r: int, pages: int)
      requires Hole(r) && Head(own, r) && size[r] == pages
      modifies this`own, this`size, this`free, len, links, links.next, links.prev
      ensures Valid()
      ensures forall p :: 0 <= p < len.Length ==> (Free(p) <==> old(Free(p)) || r <= p < r + pages)
      ensures forall h :: (Busy(h) <==> old(Busy(h)) && h != r) && (Busy(h) ==> size[h] == old(size)[h])
    {
      var q, m := AbsorbPrev(r, pages);
      ghost var own1, size1, free1 := own, size, free;
      m := AbsorbNext(q, m);
      KeptTrans(old(own), old(size), old(free), r, own1, size1, free1, q, own, size, free, q);
      FreedElements(old(own), old(size), old(free), r, own, size, free, q);
      Fill(q, m);
    }

    method Fill(q: int, m: int)
      requires Hole(q) && Head(own, q) && size[q] == m
      requires (q > 0 ==> own[q - 1] !in free) && q + m !in free
      modifies this`free, len, links, links.next, links.prev
      ensures Valid() && free == old(free) + {q}
    {
      After(own, size, q);
      len[q] := m;
      len[q + m - 1] := m;
      File(q, m);
      FillHole(old(len[..]), old(links.next[..]), links.next[..], own, size, old(free), q);
      assert len[..] == old(len[..])[q := m][q + m - 1 := m];
    }

    /** kunmap: the length of an allocated range is read from its first element. */
    method Release(r: int)
      requires Valid() && Busy(r)
      modifies this`own, this`size, this`free, len, links, links.next, links.prev
      ensures Valid()
      ensures forall p :: 0 <= p < len.Length ==> (Free(p) <==> old(Free(p)) || r <= p < r + old(size)[r])
      ensures forall h :: (Busy(h) <==> old(Busy(h)) && h != r) && (Busy(h) ==> size[h] == old(size)[h])
    {
      FreeRange(r, len[r]);
    }

    /** kmap_find_free_range: the first range of a size class that is long enough. */
    method FindFree(order: nat, pages: int) returns (r: int)
      requires Valid() && order < KMAP_ORDERS
      ensures r == -1 ==> forall h :: h in free && Order(size[h]) == order ==> size[h] < pages
      ensures r != -1 ==> r in free && size[r] >= pages
    {
      var head := len.Length + order;
      ghost var members := links.lists[head];
      assert LinkAt(links.next[..], links.prev[..], head, members, 0);
      var ptr := links.next[head];
      ghost var i := 0;
      while ptr != head
        invariant 0 <= i <= |members| && ptr == Place(head, members, i + 1)
        invariant forall j :: 0 <= j < i ==> 0 <= members[j] < |size| && size[members[j]] < pages
        decreases |members| - i
      {
        PastEnd(head, i);
        Member(head, i);
        if len[ptr] >= pages { return ptr; }
        assert LinkAt(links.next[..], links.prev[..], head, members, i + 1);
        i := i + 1;
        ptr := links.next[ptr];
      }
      PastEnd(head, i);
      forall h | h in free && Order(size[h]) == order ensures size[h] < pages {
        assert FiledAt(links.lists, size, head, h);
      }
      r := -1;
    }

    lemma PastEnd(head: int, i: int)
      requires links.Valid() && head in links.lists && 0 <= i <= |links.lists[head]|
      ensures Place(head, links.lists[head], i + 1) == head <==> i == |links.lists[head]|
    {
      assert Place(head, links.lists[head], 0) == head;
    }

    lemma Member(head: int, i: int)
      requires Valid() && head in links.lists && 0 <= i < |links.lists[head]|
      ensures var h := links.lists[head][i]; h in free && Head(own, h) && 0 <= h < len.Length && len[h] == size[h]
    {
      assert FiledAt(links.lists, size, head, links.lists[head][i]);
    }

    /** Some run of that many free elements exists. */
    ghost predicate HasRun(pages: int)
      reads this
    {
      exists p :: Run(p, pages)
    }

    ghost predicate Run(p: int, pages: int)
      reads this
    {
      0 <= p && p + pages <= |own| && forall q {:trigger own[q]} :: p <= q < p + pages ==> own[q] in free
    }

    /** A run is as good as one long enough free range. */
    lemma RunMeansRange(pages: int)
      requires Valid() && 0 < pages
      ensures HasRun(pages) <==> exists h :: h in free && size[h] >= pages
    {
      if p :| Run(p, pages) {
        RunInside(own, size, free, p, pages);
        assert InRange(own, size, own[p], p) && InRange(own, size, own[p + pages - 1], p + pages - 1);
        assert own[p] in free && size[own[p]] >= pages;
      }
      if h :| h in free && size[h] >= pages {
        assert Head(own, h);
        forall q | h <= q < h + pages ensures own[q] in free { assert InRange(own, size, h, q); }
        assert Run(h, pages);
      }
    }

    /**
     Every element lies in exactly one range; the first and the last element of that range hold its
     length, its first element looks free exactly when the element is free, and the range after a free one is not free.
     */
    lemma InOneRange(p: int) returns (h: int)
      requires Valid() && 0 <= p < len.Length
      ensures 0 <= h <= p < h + len[h] <= len.Length && Head(own, h)
      ensures forall g :: Head(own, g) && g <= p < g + len[g] ==> g == h
      ensures len[h + len[h] - 1] == len[h] && (Free(p) <==> links.next[h] != h)
      ensures Free(p) && h + len[h] < len.Length ==> Head(own, h + len[h]) && !Free(h + len[h])
    {
      h := own[p];
      assert InRange(own, size, h, p);
      forall g | Head(own, g) && g <= p < g + len[g] ensures g == h { assert InRange(own, size, g, p); }
      After(own, size, h);
      assert h in free ==> Parted(size, free, h);
    }

    /** list_del and list_init: the range leaves its list and no longer looks free. */
    method Take(r: int)
      requires Listing() && r in free && |own| == len.Length
      modifies this`free, links, links.next, links.prev
      ensures Listing() && free == old(free) - {r}
      ensures NextKept(old(links.next[..]), links.next[..], own, old(free), free) && links.next[r] == r
    {
      Unfile(r);
      NotFiled(r);
      links.Init(r);
    }

    /** The first `pages` elements of the free range `r` become an allocated range; the rest, if any, is a hole. */
    method Carve(r: int, pages: int)
      requires Valid() && r in free && 0 < pages <= size[r]
      modifies this`own, this`size, this`free, len, links, links.next, links.prev
      ensures Carved(old(own), old(size), old(free), r, pages, own, size, free)
      ensures if pages < old(size)[r] then Hole(r + pages) else Valid()
    {
      assert Head(own, r);
      ghost var rest := size[r] - pages;
      Take(r);
      After(own, size, r);
      len[r] := pages;
      len[r + pages - 1] := pages;
      assert len[..] == old(len[..])[r := pages][r + pages - 1 := pages];
      if rest > 0 {
        SplitSane(old(len[..]), old(links.next[..]), links.next[..], own, size, old(free), r, pages);
        ResizeFiled(links.lists, size, free, size[r := pages][r + pages := rest]);
        own, size := SplitOwn(own, r, pages), size[r := pages][r + pages := rest];
      } else {
        WholeSane(old(len[..]), old(links.next[..]), links.next[..], own, size, old(free), r);
      }
    }

    /** kmap_alloc_range: fails exactly when there is no run of that many free elements. */
    method Alloc(pages: int) returns (r: int)
      requires Valid() && 0 < pages
      modifies this`own, this`size, this`free, len, links, links.next, links.prev
      ensures Valid() && (r == -1 <==> !old(HasRun(pages)))
      ensures r == -1 ==> own == old(own) && size == old(size) && free == old(free)
      ensures r != -1 ==> !old(Busy(r)) && Busy(r) && size[r] == pages && old(Run(r, pages))
      ensures r != -1 ==> forall p :: 0 <= p < len.Length ==> (Free(p) <==> old(Free(p)) && !(r <= p < r + pages))
      ensures r != -1 ==> forall h ::
              (Busy(h) <==> old(Busy(h)) || h == r) &&
              (old(Busy(h)) ==> size[h] == old(size)[h])
    {
      r := Search(pages);
      if r != -1 {
        var rest := len[r] - pages;
        Carve(r, pages);
        CarvedElements(old(own), old(size), old(free), r, pages, own, size, free);
        if rest > 0 {
          FreeRange(r + pages, rest);
        }
      }
    }

    method Search(pages: int) returns (r: int)
      requires Valid() && 0 < pages
      ensures r == -1 <==> !HasRun(pages)
      ensures r != -1 ==> r in free && Head(own, r) && size[r] >= pages && len[r] == size[r] && Run(r, pages)
    {
      RunMeansRange(pages);
      var order := Order(pages);
      while order < KMAP_ORDERS
        invariant Order(pages) <= order <= KMAP_ORDERS
        invariant forall h :: h in free && Order(pages) <= Order(size[h]) < order ==> size[h] < pages
      {
        r := FindFree(order, pages);
        if r != -1 {
          assert Head(own, r);
          forall q | r <= q < r + pages ensures own[q] in free { assert InRange(own, size, r, q); }
          return;
        }
        order := order + 1;
      }
      forall h | h in free ensures size[h] < pages {
        if size[h] >= pages { OrderMonotone(pages, size[h]); }
      }
      r := -1;
    }
  }

  /** The state of the ranges right after the first `pages` elements of `r` were allocated. */
  ghost predicate Carved(own: seq<int>, size: seq<int>, free: set<int>, r: int, pages: int, own': seq<int>,
                         size': seq<int>, free': set<int>) {
    && Head(own, r) && r < |size| && 0 < pages <= size[r] && free' == free - {r}
    && if pages < size[r]
       then r + pages < |size| && own' == SplitOwn(own, r, pages) &&
           size' == size[r := pages][r + pages := size[r] - pages]
       else own' == own && size' == size
  }

  lemma CarvedElements(own: seq<int>, size: seq<int>, free: set<int>, r: int, pages: int, own': seq<int>,
                       size': seq<int>, free': set<int>)
    requires Tiled(own, size) && Spaced(own, size, free) && r in free &&
             Carved(own, size, free, r, pages, own', size', free')
    ensures |own'| == |size'| == |own| && Head(own', r) && size'[r] == pages
    ensures pages < size[r] ==> Head(own', r + pages) && r + pages !in free && size'[r + pages] == size[r] - pages
    ensures forall p {:trigger own'[p]} :: 0 <= p < |own| ==>
            (own'[p] in free' <==> own[p] in free && !(r <= p < r + size[r]))
    ensures forall p {:trigger own[p]} :: r <= p < r + size[r] ==> p < |own| && own[p] in free
    ensures forall h {:trigger Head(own', h)} ::
              (Head(own', h) && h !in free' <==>
                  (Head(own, h) && h !in free) || h == r || (pages < size[r] && h == r + pages))
    ensures forall h {:trigger Head(own', h)} :: Head(own, h) && h !in free ==> size'[h] == size[h]
  {
    assert Head(own, r);
    forall p | 0 <= p < |own| ensures own[p] == r <==> r <= p < r + size[r] {
      assert InRange(own, size, own[p], p);
      assert r <= p < r + size[r] ==> InRange(own, size, r, p);
    }
    if pages < size[r] { SplitHeads(own, size, r, pages); }
  }

  lemma SplitHeads(own: seq<int>, size: seq<int>, a: int, m: int)
    requires Tiled(own, size) && Head(own, a) && 0 < m < size[a]
    ensures a + m < |own| && own[a + m] == a
    ensures forall h {:trigger Head(own, h)} {:trigger Head(SplitOwn(own, a, m), h)} ::
            Head(SplitOwn(own, a, m), h) <==> Head(own, h) || h == a + m
  {
    assert InRange(own, size, a, a + m);
  }

  lemma SplitSane(len: seq<int>, next: seq<int>, next': seq<int>, own: seq<int>, size: seq<int>, free: set<int>,
                  r: int, m: int)
    requires Sane(len, next, own, size, free, -1) && r in free && 0 < m < size[r]
    requires NextKept(next, next', own, free, free - {r}) && next'[r] == r
    ensures r + m < |own|
    ensures Sane(len[r := m][r + m - 1 := m], next', SplitOwn(own, r, m), size[r := m][r + m := size[r] - m],
            free - {r}, r + m)
  {
    assert Head(own, r);
    var len', own', size' := len[r := m][r + m - 1 := m], SplitOwn(own, r, m), size[r := m][r + m := size[r] - m];
    SplitTiled(own, size, r, m);
    SplitHeads(own, size, r, m);
    forall h {:trigger Head(own', h)} | Head(own', h) && h != r + m && h != r
      ensures len'[h] == size'[h] && 0 < size'[h] && h + size'[h] <= |len| && len'[h + size'[h] - 1] == size'[h]
    {
      assert Head(own, h);
      Distinct(own, size, r, h);
      assert InRange(own, size, r, r + m - 1);
      assert InRange(own, size, h, h + size[h] - 1) && InRange(own, size, h, h);
    }
    forall h | h in free - {r}
        ensures Parted(size', free - {r}, h) { assert Parted(size, free, h); assert Head(own, h); }
  }

  lemma Distinct(own: seq<int>, size: seq<int>, a: int, b: int)
    requires Tiled(own, size) && Head(own, a) && Head(own, b) && a != b
    ensures a + size[a] <= b || b + size[b] <= a
  {
    if a < b { assert InRange(own, size, b, b); assert !InRange(own, size, a, b); }
    else { assert InRange(own, size, a, a); assert !InRange(own, size, b, a); }
  }

  lemma WholeSane(len: seq<int>, next: seq<int>, next': seq<int>, own: seq<int>, size: seq<int>, free: set<int>, r: int)
    requires Sane(len, next, own, size, free, -1) && r in free
    requires NextKept(next, next', own, free, free - {r}) && next'[r] == r
    ensures Head(own, r) && 0 < size[r] && r + size[r] <= |len|
    ensures Sane(len[r := size[r]][r + size[r] - 1 := size[r]], next', own, size, free - {r}, -1)
  {
    assert Head(own, r);
    assert len[r := size[r]][r + size[r] - 1 := size[r]] == len;
    forall h | h in free - {r} ensures Parted(size, free - {r}, h) { assert Parted(size, free, h); }
  }

  lemma FreedElements(own: seq<int>, size: seq<int>, free: set<int>, r: int, own': seq<int>, size': seq<int>,
                      free': set<int>, q: int)
    requires Tiled(own, size) && Head(own, r) && r !in free && Kept(own, size, free, r, own', size', free', q)
    requires forall h :: h in free' ==> Head(own', h)
    ensures forall p {:trigger own'[p]} :: 0 <= p < |own| ==>
            (own'[p] in free' + {q} <==> own[p] in free || r <= p < r + size[r])
    ensures forall h {:trigger Head(own', h)} :: Head(own', h) && h !in free' + {q} <==>
            Head(own, h) && h !in free && h != r
    ensures forall h {:trigger Head(own', h)} :: Head(own', h) && h !in free' + {q} ==> size'[h] == size[h]
  {
    forall p | 0 <= p < |own| ensures own'[p] in free' + {q} <==> own[p] in free || r <= p < r + size[r] {
      assert SameElement(own, free, r, own', free', q, p);
      assert InRange(own, size, own[p], p);
      assert r <= p < r + size[r] ==> InRange(own, size, r, p);
    }
    forall h ensures Head(own', h) && h !in free' + {q} <==> Head(own, h) && h !in free && h != r
             ensures Head(own', h) && h !in free' + {q} ==> size'[h] == size[h] {
      assert SameRange(own, size, free, r, own', size', free', q, h);
    }
  }

  /** An element is free or in the hole as before. */
  ghost predicate SameElement(own: seq<int>, free: set<int>, r: int, own': seq<int>, free': set<int>, r': int, p: int) {
    0 <= p < |own| == |own'| && (own'[p] in free' || own'[p] == r' <==> own[p] in free || own[p] == r)
  }

  /** An allocated range is one as before. */
  ghost predicate SameRange(own: seq<int>, size: seq<int>, free: set<int>, r: int, own': seq<int>, size': seq<int>,
                            free': set<int>, r': int, h: int) {
    && |own'| == |own| == |size'| == |size|
    && (Head(own', h) && h !in free' && h != r' <==> Head(own, h) && h !in free && h != r)
    && (Head(own', h) && h !in free' && h != r' ==> size'[h] == size[h])
  }

  /** Ranges may have joined the hole, but the elements free or in the hole, and the allocated ranges, are the same. */
  ghost predicate Kept(own: seq<int>, size: seq<int>, free: set<int>, r: int, own': seq<int>, size': seq<int>,
                       free': set<int>, r': int) {
    && |own'| == |own| == |size'| == |size|
    && (forall p {:trigger SameElement(own, free, r, own', free', r', p)} :: 0 <= p < |own| ==>
        SameElement(own, free, r, own', free', r', p))
    && (forall h {:trigger SameRange(own, size, free, r, own', size', free', r', h)} ::
        SameRange(own, size, free, r, own', size', free', r', h))
  }
}
