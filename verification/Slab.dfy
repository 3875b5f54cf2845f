/**
 The slab cache for small objects (kmem_cache.c:97-237): objects of one size, cut from pages, with a
 tag behind each free object that links it to the next free one of its slab.

 A slab is named by the address of its page. The slab structure fills the last 64 bytes of the page.
 */
module Slab {

  import opened Common
  import B = Balloc

  datatype Header = Header(free: nat, total: nat, tags: int)

  // ----- chains of tags -----

  /**
   From `head` the links lead through exactly the tags of these objects, `size` bytes behind them, to the null
   pointer.
   */
  ghost predicate Chain(next: int -> int, head: int, s: seq<int>, size: int)
    decreases |s|
  {
    if s == [] then head == 0 else head == s[0] + size && head != 0 && Chain(next, next(head), s[1..], size)
  }

  /** A store into the tag of another object does not change the chain. */
  lemma {:induction false} ChainFrame(next: int -> int, head: int, s: seq<int>, size: int, o: int, v: int)
    requires Chain(next, head, s, size) && o !in s
    ensures Chain(Update(next, o + size, v), head, s, size)
    decreases |s|
  {
    if s != [] { ChainFrame(next, next(head), s[1..], size, o, v); }
  }

  lemma {:induction false} ChainPush(next: int -> int, head: int, s: seq<int>, size: int, o: int)
    requires Chain(next, head, s, size) && o !in s && o + size != 0 && NoDup(s)
    ensures Chain(Update(next, o + size, head), o + size, [o] + s, size) && NoDup([o] + s)
  {
    ChainFrame(next, head, s, size, o, head);
    assert ([o] + s)[1..] == s;
  }

  lemma {:induction false} ChainPop(next: int -> int, head: int, s: seq<int>, size: int)
    requires Chain(next, head, s, size) && s != [] && NoDup(s)
    ensures head == s[0] + size && Chain(next, next(head), s[1..], size) && NoDup(s[1..]) && s[0] !in s[1..]
    ensures forall x :: x in s <==> x == s[0] || x in s[1..]
  {
    assert s == [s[0]] + s[1..];
  }

  // ----- the objects of a page -----

  /** Objects follow each other at the padded size, from the start of the page up to the slab structure. */
  ghost predicate Laid(objs: seq<int>, base: int, padded: int) {
    && (objs != [] ==> objs[0] == base)
    && (forall i {:trigger Follows(objs, i, padded)} :: 0 < i < |objs| ==> Follows(objs, i, padded))
    && (forall i {:trigger objs[i]} :: 0 <= i < |objs| ==> base <= objs[i] && objs[i] + padded <= base + 4032)
  }

  ghost predicate Follows(objs: seq<int>, i: int, padded: int) {
    0 < i < |objs| && objs[i] == objs[i - 1] + padded
  }

  /** No two objects overlap. */
  lemma {:induction false} LaidApart(objs: seq<int>, base: int, padded: int, i: int, j: int)
    requires Laid(objs, base, padded) && 0 < padded && 0 <= i < j < |objs|
    ensures objs[i] + padded <= objs[j]
    decreases j
  {
    assert Follows(objs, j, padded);
    if i + 1 < j { LaidApart(objs, base, padded, i, j - 1); }
  }

  /** kmem_get_slab: the page of an object. */
  function PageOf(x: int): int {
    x - x % 4096
  }

  datatype Layout = Layout(size: int, padded: int)

  /** The tag of an object lies behind it, inside its padding. */
  predicate Sensible(l: Layout) {
    0 <= l.size && l.size + 8 <= l.padded
  }

  /** A page holds at least two objects. */
  predicate Fitting(l: Layout) {
    2 * l.padded <= 4032
  }

  /** There is no room for one more object. */
  ghost predicate Complete(objs: seq<int>, base: int, padded: int) {
    base + 4032 < (if objs == [] then base else objs[|objs| - 1] + padded) + padded
  }

  /** A place for an object on the page `base`. */
  ghost predicate Place(l: Layout, base: int, o: int) {
    l.padded > 0 && base <= o && o + l.padded <= base + 4032 && (o - base) % l.padded == 0
  }

  /** Where the objects are. */
  lemma {:induction false} LaidAt(objs: seq<int>, base: int, padded: int, i: int)
    requires Laid(objs, base, padded) && 0 <= i < |objs|
    ensures objs[i] == base + padded * i
    decreases i
  {
    if i > 0 {
      assert Follows(objs, i, padded);
      LaidAt(objs, base, padded, i - 1);
    }
  }

  lemma Grows(x: int, i: int, j: int)
    requires 0 <= x && i <= j
    ensures x * i <= x * j
  {
  }

  /** The objects of a complete page are just its places, as many as fit. */
  lemma {:induction false} EveryPlace(l: Layout, objs: seq<int>, base: int)
    requires l.padded > 0 && Laid(objs, base, l.padded) && Complete(objs, base, l.padded)
    ensures forall o {:trigger o in objs} :: o in objs <==> Place(l, base, o)
    ensures |objs| == 4032 / l.padded
  {
    PlaceCount(l, objs, base);
    forall o ensures o in objs <==> Place(l, base, o) {
      if o in objs { ObjectPlace(l, objs, base, o); }
      if Place(l, base, o) { PlaceObject(l, objs, base, o); }
    }
  }

  lemma PlaceCount(l: Layout, objs: seq<int>, base: int)
    requires l.padded > 0 && Laid(objs, base, l.padded) && Complete(objs, base, l.padded)
    ensures l.padded * |objs| <= 4032 < l.padded * (|objs| + 1) && |objs| == 4032 / l.padded
  {
    var n, x := |objs|, l.padded;
    if n > 0 { LaidAt(objs, base, x, n - 1); }
    assert x * n <= 4032 < x * (n + 1);
    QuotientUnique(4032, x, n, 4032 - x * n);
  }

  lemma ObjectPlace(l: Layout, objs: seq<int>, base: int, o: int)
    requires l.padded > 0 && Laid(objs, base, l.padded) && o in objs
    ensures Place(l, base, o)
  {
    var i :| 0 <= i < |objs| && objs[i] == o;
    LaidAt(objs, base, l.padded, i);
    QuotientUnique(l.padded * i, l.padded, i, 0);
  }

  lemma PlaceObject(l: Layout, objs: seq<int>, base: int, o: int)
    requires l.padded > 0 && Laid(objs, base, l.padded) && Complete(objs, base, l.padded) && Place(l, base, o)
    ensures o in objs
  {
    var n, x := |objs|, l.padded;
    var k := (o - base) / x;
    PlaceCount(l, objs, base);
    Divided(o - base, x);
    assert o == base + x * k;
    assert x * (k + 1) == x * k + x;
    if k >= n { Grows(x, n + 1, k + 1); }
    LaidAt(objs, base, x, k);
    assert objs[k] == o;
  }

  lemma Divided(a: int, x: int)
    requires 0 < x && 0 <= a && a % x == 0
    ensures a / x >= 0 && a == x * (a / x)
  {
  }

  /** So many objects of a layout go on a page: none, one, or at least two. */
  ghost predicate Filled(l: Layout, total: nat) {
    (total >= 1 <==> l.padded <= 4032) && (total >= 2 <==> Fitting(l))
  }

  // ----- kmem_small_cache_init -----

  /** The layout of a small cache for objects of a size, aligned to 2^k. */
  function SmallLayout(size: nat, k: nat): Layout {
    var sz := (size + 7) / 8 * 8;
    Layout(sz, B.AlignUp(sz + 8, if k < 3 then 3 else k))
  }

  /** Objects hold their size, are aligned, and have room for their tag, and are no larger than that asks for. */
  lemma LayoutHolds(size: nat, k: nat)
    ensures var l := SmallLayout(size, k); size <= l.size && Sensible(l) && B.Multiple(l.padded, k)
    ensures var l := SmallLayout(size, k); forall y :: size <= y && y % 8 == 0 ==> l.size <= y
    ensures var l, j := SmallLayout(size, k), if k < 3 then 3 else k;
            B.Multiple(l.padded, j) && forall y :: l.size + 8 <= y && B.Multiple(y, j) ==> l.padded <= y
  {
    var j := if k < 3 then 3 else k;
    B.AlignLeast(SmallLayout(size, k).size + 8, j, 0);
    forall y | SmallLayout(size, k).size + 8 <= y && B.Multiple(y, j) ensures SmallLayout(size, k).padded <= y {
      B.AlignLeast(SmallLayout(size, k).size + 8, j, y);
    }
    LessAligned(SmallLayout(size, k).padded, j, k);
  }

  lemma {:induction false} LessAligned(x: int, k: nat, j: nat)
    requires B.Multiple(x, k) && j <= k
    ensures B.Multiple(x, j)
    decreases k
  {
    if j > 0 { LessAligned(x / 2, k - 1, j - 1); }
  }

  /** A positive multiple of a power of two is at least that power. */
  lemma {:induction false} AtLeastPower(x: int, k: nat)
    requires B.Multiple(x, k) && 0 < x
    ensures Pow2(k) <= x
    decreases k
  {
    if k > 0 { AtLeastPower(x / 2, k - 1); }
  }

  lemma {:induction false} PowerMultiple(k: nat)
    ensures B.Multiple(Pow2(k), k)
  {
    if k > 0 { PowerMultiple(k - 1); }
  }

  lemma Powers()
    ensures Pow2(10) == 1024 && Pow2(11) == 2048
  {
    assert Pow2(10) == 2 * Pow2(9) && Pow2(9) == 2 * Pow2(8) && Pow2(8) == 2 * Pow2(7);
  }

  lemma AlignWithin(x: int, j: nat, p: nat)
    requires j <= p && x <= Pow2(p)
    ensures B.AlignUp(x, j) <= Pow2(p)
  {
    PowerMultiple(p);
    LessAligned(Pow2(p), p, j);
    B.AlignLeast(x, j, Pow2(p));
  }

  /** Padding goes up to a power of two at most. */
  lemma PaddedWithin(size: nat, k: nat, p: nat)
    requires size <= 4096 / 8 && k <= p && 10 <= p && 1024 <= Pow2(p)
    ensures SmallLayout(size, k).padded <= Pow2(p)
  {
    AlignWithin((size + 7) / 8 * 8 + 8, if k < 3 then 3 else k, p);
  }

  /**
   Every cache that kmem_cache_create makes small has room for two objects exactly when its alignment is at
   most 1024.
   */
  lemma SmallFits(size: nat, k: nat)
    requires size <= 4096 / 8
    ensures Fitting(SmallLayout(size, k)) <==> k <= 10
  {
    Powers();
    if k <= 10 {
      PaddedWithin(size, k, 10);
    } else {
      LayoutHolds(size, k);
      AtLeastPower(SmallLayout(size, k).padded, k);
      PowGrows(11, k);
    }
  }

  /** One slab: its free objects are those on its chain of tags, and the others are in use. */
  ghost predicate SlabOk(l: Layout, h: Header, next: int -> int, base: int, objs: seq<int>, free: seq<int>,
                         live: set<int>) {
    && base > 0 && base % 4096 == 0 && Laid(objs, base, l.padded) && Complete(objs, base, l.padded)
    && h.total == |objs| && h.free == |free| && Filled(l, h.total)
    && Chain(next, h.tags, free, l.size) && NoDup(free)
    && (forall o {:trigger o in free} :: o in free ==> o in objs)
    && (forall o {:trigger o in objs} :: o in objs ==> (o in live <==> o !in free))
  }

  lemma {:induction false} InPage(l: Layout, base: int, objs: seq<int>, o: int)
    requires Sensible(l) && base > 0 && base % 4096 == 0 && Laid(objs, base, l.padded) && o in objs
    ensures PageOf(o) == base && 0 < o && PageOf(o + l.size) == base
  {
    var i :| 0 <= i < |objs| && objs[i] == o;
    assert base <= objs[i] && objs[i] + l.padded <= base + 4032;
  }

  /** A change of a tag and of an object in another page. */
  lemma {:induction false} OtherSlab(l: Layout, h: Header, next: int -> int, base: int, objs: seq<int>,
                                     free: seq<int>, live: set<int>, live': set<int>, o: int, v: int)
    requires Sensible(l) && SlabOk(l, h, next, base, objs, free, live) && PageOf(o) != base
    requires live' == live + {o} || live' == live - {o}
    ensures SlabOk(l, h, next, base, objs, free, live') &&
            SlabOk(l, h, Update(next, o + l.size, v), base, objs, free, live')
  {
    forall x | x in objs ensures x != o { InPage(l, base, objs, x); }
    ChainFrame(next, h.tags, free, l.size, o, v);
  }

  /** kmem_small_slab_alloc: the first free object is handed out. */
  lemma {:induction false} TakeOk(l: Layout, h: Header, next: int -> int, base: int, objs: seq<int>, free: seq<int>,
                                  live: set<int>)
    requires SlabOk(l, h, next, base, objs, free, live) && free != []
    ensures var o := h.tags - l.size;
            && o in objs && o !in live && o == free[0]
            && SlabOk(l, h.(free := h.free - 1, tags := next(h.tags)), next, base, objs, free[1..], live + {o})
  {
    ChainPop(next, h.tags, free, l.size);
  }

  /** kmem_small_slab_free: the object goes back to the head of the chain. */
  lemma {:induction false} GiveOk(l: Layout, h: Header, next: int -> int, base: int, objs: seq<int>, free: seq<int>,
                                  live: set<int>, o: int)
    requires Sensible(l) && SlabOk(l, h, next, base, objs, free, live) && o in objs && o in live
    ensures SlabOk(l, h.(free := h.free + 1, tags := o + l.size), Update(next, o + l.size, h.tags), base, objs,
            [o] + free, live - {o})
  {
    InPage(l, base, objs, o);
    ChainPush(next, h.tags, free, l.size, o);
  }

  ghost function Members(s: seq<int>): set<int> {
    set x | x in s
  }

  lemma {:induction false} MemberCount(s: seq<int>)
    ensures |Members(s)| <= |s| && (NoDup(s) ==> |Members(s)| == |s|)
  {
    if s != [] {
      var n := |s| - 1;
      MemberCount(s[..n]);
      assert s == s[..n] + [s[n]];
      assert Members(s) == Members(s[..n]) + {s[n]};
    }
  }

  lemma {:induction false} SubsetCount(a: set<int>, b: set<int>)
    requires a <= b
    ensures |a| <= |b| && (a != b ==> |a| < |b|)
  {
    assert b == a + (b - a);
    assert a != b ==> b - a != {};
  }

  /** A slab has no more free objects than objects, and fewer when one is in use. */
  lemma {:induction false} FreeCount(l: Layout, h: Header, next: int -> int, base: int, objs: seq<int>,
                                     free: seq<int>, live: set<int>)
    requires SlabOk(l, h, next, base, objs, free, live)
    ensures h.free <= h.total && ((exists o :: o in objs && o in live) ==> h.free < h.total)
  {
    MemberCount(free);
    MemberCount(objs);
    assert forall o :: o in Members(free) ==> o in Members(objs);
    SubsetCount(Members(free), Members(objs));
    if o :| o in objs && o in live { assert o in Members(objs) && o !in Members(free); }
  }

  // ----- the three lists -----

  /** Each slab is on one of the lists, once: on the one that its number of free objects asks for. */
  ghost predicate Listed(slabs: map<int, Header>, empty: seq<int>, partial: seq<int>, full: seq<int>) {
    && NoDup(empty) && NoDup(partial) && NoDup(full)
    && (forall b {:trigger b in empty} :: b in empty <==> b in slabs && slabs[b].free == slabs[b].total)
    && (forall b {:trigger b in partial} :: b in partial <==> b in slabs && 0 < slabs[b].free < slabs[b].total)
    && (forall b {:trigger b in full} :: b in full <==> b in slabs && slabs[b].free == 0)
    && (forall b {:trigger b in empty} {:trigger b in full} :: b in empty ==> b !in full)
  }

  function Without(s: seq<int>, x: int): (r: seq<int>)
    ensures forall y :: y in r <==> y in s && y != x
  {
    if s == [] then [] else if s[0] == x then Without(s[1..], x) else [s[0]] + Without(s[1..], x)
  }

  lemma {:induction false} NoDupCons(x: int, s: seq<int>)
    requires NoDup(s) && x !in s
    ensures NoDup([x] + s)
  {
  }

  lemma {:induction false} WithoutNoDup(s: seq<int>, x: int)
    requires NoDup(s)
    ensures NoDup(Without(s, x)) && NoDup([x] + Without(s, x))
  {
    if s != [] {
      WithoutNoDup(s[1..], x);
      assert forall i, j :: 0 <= i < j < |s[1..]| ==> s[1..][i] != s[1..][j];
      NoDupCons(s[0], Without(s[1..], x));
    }
    NoDupCons(x, Without(s, x));
  }

  /** list_del from the lists it may be on, then list_add to the list that the new count asks for. */
  lemma {:induction false} Relisted(slabs: map<int, Header>, empty: seq<int>, partial: seq<int>, full: seq<int>,
                                    b: int, h: Header)
    requires Listed(slabs, empty, partial, full) && h.free <= h.total && 0 < h.total
    ensures var e, p, f := Without(empty, b), Without(partial, b), Without(full, b);
            && (h.free == h.total ==> Listed(slabs[b := h], [b] + e, p, f))
            && (0 < h.free < h.total ==> Listed(slabs[b := h], e, [b] + p, f))
            && (h.free == 0 ==> Listed(slabs[b := h], e, p, [b] + f))
  {
    WithoutNoDup(empty, b);
    WithoutNoDup(partial, b);
    WithoutNoDup(full, b);
  }

  lemma {:induction false} WithoutAbsent(s: seq<int>, x: int)
    requires x !in s
    ensures Without(s, x) == s
  {
    if s != [] { WithoutAbsent(s[1..], x); }
  }

  /**
   kmem_cache_alloc moves a slab that was all free to the partial list without looking at its count:
   that is right exactly when the slab has at least two objects.
   */
  lemma {:induction false} TwoObjectsNeeded(slabs: map<int, Header>, empty: seq<int>, partial: seq<int>,
                                            full: seq<int>, b: int, h: Header)
    requires Listed(slabs, empty, partial, full) && b in empty && slabs[b].total >= 1
    requires h.total == slabs[b].total && h.free == slabs[b].free - 1
    ensures Listed(slabs[b := h], Without(empty, b), [b] + partial, full) <==> slabs[b].total >= 2
  {
    if slabs[b].total >= 2 {
      Relisted(slabs, empty, partial, full, b, h);
      WithoutAbsent(partial, b);
      WithoutAbsent(full, b);
    } else {
      assert b in [b] + partial;
      assert slabs[b := h][b].free == 0;
    }
  }

  /** A slab that stays on the partial list. */
  lemma {:induction false} StaysPartial(slabs: map<int, Header>, empty: seq<int>, partial: seq<int>, full: seq<int>,
                                        b: int, h: Header)
    requires Listed(slabs, empty, partial, full) && b in partial && 0 < h.free < h.total
    ensures Listed(slabs[b := h], empty, partial, full)
  {
  }

  /** A slab of the partial list that gave an object stays there or is full. */
  lemma {:induction false} LeavesPartial(slabs: map<int, Header>, empty: seq<int>, partial: seq<int>, full: seq<int>,
                                         b: int, h: Header)
    requires Listed(slabs, empty, partial, full) && b in partial && 0 <= h.free < h.total
    ensures if h.free == 0 then Listed(slabs[b := h], empty, Without(partial, b), [b] + full)
            else Listed(slabs[b := h], empty, partial, full)
  {
    if h.free == 0 {
      Relisted(slabs, empty, partial, full, b, h);
      WithoutAbsent(empty, b);
      WithoutAbsent(full, b);
    }
  }

  /** What kmem_cache_alloc does: return null, return an object, or follow a null pointer. */
  datatype Alloced = Null | Object(o: int) | Fault

  class Cache {
    const layout: Layout
    var slabs: map<int, Header>
    var next: int -> int
    var partial: seq<int>
    var empty: seq<int>
    var full: seq<int>
    var avail: seq<int>
    ghost var objs: map<int, seq<int>>
    ghost var free: map<int, seq<int>>
    ghost var live: set<int>

    /** All pages that the cache has or can have. */
    ghost const pages: seq<int>

    ghost predicate Valid()
      reads this
    {
      && Sensible(layout)
      && AllOk(layout, slabs, next, objs, free, live)
      && Listed(slabs, empty, partial, full)
      && (forall o {:trigger o in live} :: o in live ==> PageOf(o) in slabs && o in objs[PageOf(o)])
      && NoDup(avail) && (forall b {:trigger b in avail} :: b in avail ==> b > 0 && b % 4096 == 0 && b !in slabs)
      && (forall b {:trigger b in pages} :: b in pages <==> b in slabs || b in avail)
    }

    /** kmem_small_cache_init for objects of a size, aligned to 2^k, and the pages that will be there. */
    constructor (size: nat, k: nat, memory: seq<int>)
      requires NoDup(memory) && forall b :: b in memory ==> b > 0 && b % 4096 == 0
      ensures Valid() && live == {} && avail == pages == memory && layout == SmallLayout(size, k)
    {
      LayoutHolds(size, k);
      layout, slabs, next := SmallLayout(size, k), map[], x => 0;
      partial, empty, full, avail, pages := [], [], [], memory, memory;
      objs, free, live := map[], map[], {};
    }

    /** Live objects never overlap. */
    lemma LiveApart(o: int, p: int)
      requires Valid() && o in live && p in live && o < p
      ensures o + layout.padded <= p
    {
      var b, c := PageOf(o), PageOf(p);
      assert OkAt(layout, slabs, next, objs, free, live, b) && OkAt(layout, slabs, next, objs, free, live, c);
      InPage(layout, b, objs[b], o);
      InPage(layout, c, objs[c], p);
      var i :| 0 <= i < |objs[b]| && objs[b][i] == o;
      var j :| 0 <= j < |objs[c]| && objs[c][j] == p;
      if b == c {
        if i < j { LaidApart(objs[b], b, layout.padded, i, j); } else { LaidApart(objs[b], b, layout.padded, j, i); }
      }
    }

    /** kmem_small_slab_alloc and the count. */
    method Take(b: int) returns (o: int)
      requires Sensible(layout) && AllOk(layout, slabs, next, objs, free, live) && b in slabs && slabs[b].free > 0
      modifies this`slabs, this`free, this`live
      ensures AllOk(layout, slabs, next, objs, free, live)
      ensures o !in old(live) && live == old(live) + {o} && PageOf(o) == b && o in objs[b]
      ensures slabs == old(slabs)[b := old(slabs)[b].(free := old(slabs)[b].free - 1, tags := next(old(slabs)[b].tags))]
      ensures b in old(free) && old(free)[b] != [] && o == old(free)[b][0] && free == old(free)[b := old(free)[b][1..]]
    {
      var h := slabs[b];
      o := h.tags - layout.size;
      TakeAll(layout, slabs, next, objs, free, live, b);
      slabs := slabs[b := h.(free := h.free - 1, tags := next(h.tags))];
      free := free[b := free[b][1..]];
      live := live + {o};
    }

    /** kmem_small_slab_free and the count. */
    method Give(b: int, o: int)
      requires Sensible(layout) && AllOk(layout, slabs, next, objs, free, live) && b in slabs && o in objs[b] &&
               o in live
      modifies this`slabs, this`free, this`live, this`next
      ensures AllOk(layout, slabs, next, objs, free, live)
      ensures live == old(live) - {o}
      ensures slabs == old(slabs)[b := old(slabs)[b].(free := old(slabs)[b].free + 1, tags := o + layout.size)]
      ensures b in old(free) && free == old(free)[b := [o] + old(free)[b]]
    {
      var h, t := slabs[b], o + layout.size;
      GiveAll(layout, slabs, next, objs, free, live, b, o);
      next := Update(next, t, h.tags);
      slabs := slabs[b := h.(free := h.free + 1, tags := t)];
      free := free[b := [o] + free[b]];
      live := live - {o};
    }

    /** The loop of kmem_small_slab_create: every object that fits below the slab structure goes on the chain. */
    method Thread(base: int) returns (tags: int, total: nat, ghost os: seq<int>, ghost fs: seq<int>)
      requires Sensible(layout) && AllOk(layout, slabs, next, objs, free, live) && base > 0 && base % 4096 == 0 &&
               base !in slabs
      requires forall o {:trigger o in live} :: o in live ==> PageOf(o) in slabs
      modifies this`next
      ensures AllOk(layout, slabs, next, objs, free, live)
      ensures total == |os| == |fs| && Filled(layout, total) && Complete(os, base, layout.padded)
      ensures exists ptr :: Growing(layout, next, tags, base, os, fs, ptr)
      ensures total == 4032 / layout.padded
    {
      var ptr := base;
      tags, total, os, fs := 0, 0, [], [];
      while ptr + layout.padded <= base + 4032
        invariant AllOk(layout, slabs, next, objs, free, live)
        invariant total == |os| == |fs| && Growing(layout, next, tags, base, os, fs, ptr)
        decreases base + 4032 - ptr
      {
        Grown(layout, next, tags, base, os, fs, ptr);
        PushAll(layout, slabs, next, objs, free, live, base, ptr, tags);
        next := Update(next, ptr + layout.size, tags);
        tags := ptr + layout.size;
        os, fs := os + [ptr], [ptr] + fs;
        total := total + 1;
        ptr := ptr + layout.padded;
      }
      PlaceCount(layout, os, base);
      if total >= 2 { assert Follows(os, 1, layout.padded) && os[1] == base + layout.padded; }
      if total == 1 { assert ptr == os[0] + layout.padded; }
    }

    /** kmem_small_slab_create. */
    method Create(base: int) returns (h: Header)
      requires Sensible(layout) && AllOk(layout, slabs, next, objs, free, live) && base > 0 && base % 4096 == 0 &&
               base !in slabs
      requires forall o {:trigger o in live} :: o in live ==> PageOf(o) in slabs
      modifies this`slabs, this`next, this`objs, this`free
      ensures AllOk(layout, slabs, next, objs, free, live) && h.free == h.total && Filled(layout, h.total)
      ensures slabs == old(slabs)[base := h] && (forall b :: b in old(objs) && b != base ==>
              b in objs && objs[b] == old(objs)[b])
    {
      var tags, total, os, fs := Thread(base);
      CreateAll(layout, slabs, next, objs, free, live, base, tags, os, fs);
      h := Header(total, total, tags);
      slabs := slabs[base := h];
      objs, free := objs[base := os], free[base := fs];
    }

    /** kmem_cache_grow: a new page, all of whose objects are free; the lists are right exactly when there are any. */
    method Grow() returns (ok: bool)
      requires Valid()
      modifies this`slabs, this`next, this`objs, this`free, this`empty, this`avail
      ensures ok == (old(avail) != []) && (!ok ==> Valid() && slabs == old(slabs) && empty == old(empty) && avail == [])
      ensures ok ==> empty == [old(avail)[0]] + old(empty) && avail == old(avail)[1..] && empty[0] in slabs
      ensures ok ==> (Valid() <==> layout.padded <= 4032)
      ensures ok && layout.padded > 4032 ==> slabs[empty[0]].free == 0
    {
      if avail == [] { return false; }
      var base := avail[0];
      assert base in avail;
      NoDupTail(avail);
      ghost var s := slabs;
      var h := Create(base);
      WithoutAbsent(empty, base);
      WithoutAbsent(partial, base);
      WithoutAbsent(full, base);
      if h.total > 0 { Relisted(s, empty, partial, full, base, h); }
      avail := avail[1..];
      empty := [base] + empty;
      assert h.total == 0 ==> base !in full && slabs[base].free == 0;
      ok := true;
    }

    /**
     kmem_cache_alloc: null exactly when no slab has an object and no page can be had; a fault exactly when
     there is a page and no object fits on it; otherwise an object that nobody has. The lists are right
     afterwards exactly when the result is null or two objects fit on a page. If not, the first slab of
     the partial list has no free object left, and the next call follows its null pointer.
     */
    method Alloc() returns (r: Alloced)
      requires Valid()
      modifies this
      ensures r == Null <==> old(partial) == [] && old(empty) == [] && old(avail) == []
      ensures r == Null ==> live == old(live) && slabs == old(slabs)
      ensures r == Null ==> forall b, o :: b in pages && Place(layout, b, o) ==> o in live
      ensures r.Object? && old(partial) != [] ==> Handed(old(free), old(live), old(partial)[0], r.o)
      ensures r.Object? && old(partial) == [] && old(empty) != [] ==> Handed(old(free), old(live), old(empty)[0], r.o)
      ensures r.Object? && old(partial) == old(empty) == [] ==> Place(layout, old(avail)[0], r.o)
      ensures r == Fault <==> r != Null && layout.padded > 4032
      ensures r.Object? ==> r.o > 0 && r.o !in old(live) && live == old(live) + {r.o}
      ensures r != Fault ==> (Valid() <==> r == Null || Fitting(layout))
      ensures r.Object? && !Fitting(layout) ==> partial != [] && Spent(partial[0])
    {
      if partial != [] {
        RoomForTwo(partial[0]);
        var o := FromPartial(partial[0]);
        return Object(o);
      }
      if empty == [] {
        var grown := Grow();
        if !grown {
          forall b, o | b in pages && Place(layout, b, o) ensures o in live { AllInUse(b, o); }
          return Null;
        }
        if slabs[empty[0]].free == 0 {
          if layout.padded <= 4032 { RoomForOne(empty[0]); }
          return Fault;
        }
      } else {
        RoomForOne(empty[0]);
      }
      var o := FromEmpty(empty[0]);
      r := Object(o);
    }

    /** The slab has no free object, and its chain is the null pointer. */
    ghost predicate Spent(b: int)
      reads this`slabs
    {
      b in slabs && slabs[b].free == 0 && slabs[b].tags == 0
    }

    /** A slab that is neither all free nor full has two objects. */
    lemma RoomForTwo(b: int)
      requires Valid() && b in partial
      ensures Fitting(layout) && layout.padded <= 4032
    {
      assert OkAt(layout, slabs, next, objs, free, live, b);
    }

    lemma RoomForOne(b: int)
      requires Valid() && b in empty
      ensures layout.padded <= 4032 && slabs[b].free > 0
    {
      assert OkAt(layout, slabs, next, objs, free, live, b);
      assert b !in full;
    }

    method FromPartial(b: int) returns (o: int)
      requires Valid() && b in partial
      modifies this`slabs, this`free, this`live, this`partial, this`full
      ensures Valid() && o > 0 && o !in old(live) && live == old(live) + {o} && Handed(old(free), old(live), b, o)
    {
      ghost var s := slabs;
      o := Take(b);
      Positive(b, o);
      AtPlace(b, o);
      LeavesPartial(s, empty, partial, full, b, slabs[b]);
      if slabs[b].free == 0 {
        partial := Without(partial, b);
        full := [b] + full;
      }
    }

    /** A slab that was all free goes to the partial list, whether it has an object left or not. */
    method FromEmpty(b: int) returns (o: int)
      requires Valid() && b in empty && b == empty[0]
      modifies this`slabs, this`free, this`live, this`partial, this`empty
      ensures o > 0 && o !in old(live) && live == old(live) + {o} && (Valid() <==> Fitting(layout))
      ensures Handed(old(free), old(live), b, o)
      ensures !Fitting(layout) ==> partial != [] && Spent(partial[0])
    {
      ghost var s := slabs;
      RoomForOne(b);
      assert OkAt(layout, slabs, next, objs, free, live, b);
      o := Take(b);
      Positive(b, o);
      AtPlace(b, o);
      TwoObjectsNeeded(s, empty, partial, full, b, slabs[b]);
      empty := Without(empty, b);
      partial := [b] + partial;
      assert OkAt(layout, slabs, next, objs, free, live, b);
    }

    /** The object is the one freed last on the page, in a place of the page that was not in use. */
    ghost predicate Handed(chains: map<int, seq<int>>, used: set<int>, b: int, o: int) {
      && b in chains && chains[b] != [] && o == chains[b][0] && o !in used
      && Place(layout, b, o) && b in pages && PageOf(o) == b
    }

    lemma AtPlace(b: int, o: int)
      requires Sensible(layout) && AllOk(layout, slabs, next, objs, free, live) && b in slabs && o in objs[b]
      ensures Place(layout, b, o) && PageOf(o) == b
    {
      assert OkAt(layout, slabs, next, objs, free, live, b);
      EveryPlace(layout, objs[b], b);
      InPage(layout, b, objs[b], o);
    }

    /** When no list has a slab with a free object and no page is left, every place of every page is in use. */
    lemma AllInUse(b: int, o: int)
      requires Valid() && partial == [] && empty == [] && avail == [] && b in pages && Place(layout, b, o)
      ensures o in live
    {
      assert OkAt(layout, slabs, next, objs, free, live, b);
      EveryPlace(layout, objs[b], b);
      FreeCount(layout, slabs[b], next, b, objs[b], free[b], live);
      assert b !in empty && b !in partial;
      assert b in full;
      assert free[b] == [];
      assert o in objs[b] && o !in free[b];
    }

    lemma Positive(b: int, o: int)
      requires Sensible(layout) && AllOk(layout, slabs, next, objs, free, live) && b in slabs && o in objs[b]
      ensures o > 0
    {
      assert OkAt(layout, slabs, next, objs, free, live, b);
      InPage(layout, b, objs[b], o);
    }

    /** kmem_cache_free of an object in use. */
    method Free(o: int)
      requires Valid() && o in live
      modifies this`slabs, this`free, this`live, this`next, this`partial, this`empty, this`full
      ensures Valid() && live == old(live) - {o}
      ensures free == old(free)[PageOf(o) := [o] + old(free)[PageOf(o)]]
    {
      var b := PageOf(o);
      ghost var s := slabs;
      assert OkAt(layout, slabs, next, objs, free, live, b);
      FreeCount(layout, slabs[b], next, b, objs[b], free[b], live);
      Give(b, o);
      var h := slabs[b];
      Relisted(s, empty, partial, full, b, h);
      if h.free == h.total {
        empty, partial, full := [b] + Without(empty, b), Without(partial, b), Without(full, b);
      } else if h.free == 1 {
        WithoutAbsent(empty, b);
        WithoutAbsent(partial, b);
        full, partial := Without(full, b), [b] + partial;
      } else {
        StaysPartial(s, empty, partial, full, b, h);
      }
    }
  }

  /** A small cache with the alignment 2048, such as for eight bytes: the second allocation follows a null pointer. */
  method OneObject(size: nat, k: nat) returns (c: Cache)
    requires size <= 4096 / 8 && k == 11
    ensures c.layout == SmallLayout(size, k) && !c.Valid() && c.partial != [] && c.Spent(c.partial[0])
  {
    Powers();
    SmallFits(size, k);
    PaddedWithin(size, k, k);
    c := new Cache(size, k, [4096]);
    var r := c.Alloc();
  }

  lemma {:induction false} NoDupTail(s: seq<int>)
    requires NoDup(s) && s != []
    ensures NoDup(s[1..]) && s[0] !in s[1..] && forall x :: x in s[1..] ==> x in s
  {
  }

  lemma {:induction false} CreateAll(l: Layout, slabs: map<int, Header>, next: int -> int, objs: map<int, seq<int>>,
                                     free: map<int, seq<int>>, live: set<int>,
                                     base: int, tags: int, os: seq<int>, fs: seq<int>)
    requires Sensible(l) && AllOk(l, slabs, next, objs, free, live) && base > 0 && base % 4096 == 0 && base !in slabs
    requires forall o {:trigger o in live} :: o in live ==> PageOf(o) in slabs
    requires |os| == |fs| && Filled(l, |os|) && Complete(os, base, l.padded)
    requires exists ptr :: Growing(l, next, tags, base, os, fs, ptr)
    ensures AllOk(l, slabs[base := Header(|os|, |os|, tags)], next, objs[base := os], free[base := fs], live)
  {
    var ptr :| Growing(l, next, tags, base, os, fs, ptr);
    forall o | o in os ensures o !in live { InPage(l, base, os, o); }
    var slabs', objs', free' := slabs[base := Header(|os|, |os|, tags)], objs[base := os], free[base := fs];
    forall c | c in slabs' ensures OkAt(l, slabs', next, objs', free', live, c) {
      if c != base { assert OkAt(l, slabs, next, objs, free, live, c); }
    }
  }

  ghost predicate OkAt(l: Layout, slabs: map<int, Header>, next: int -> int, objs: map<int, seq<int>>, free: map<int,
                       seq<int>>, live: set<int>, b: int) {
    b in slabs && b in objs && b in free && SlabOk(l, slabs[b], next, b, objs[b], free[b], live)
  }

  ghost predicate AllOk(l: Layout, slabs: map<int, Header>, next: int -> int, objs: map<int, seq<int>>, free: map<int,
                        seq<int>>, live: set<int>) {
    && slabs.Keys == objs.Keys == free.Keys
    && forall b {:trigger OkAt(l, slabs, next, objs, free, live, b)} :: b in slabs ==>
        OkAt(l, slabs, next, objs, free, live, b)
  }

  lemma {:induction false} TakeAll(l: Layout, slabs: map<int, Header>, next: int -> int, objs: map<int, seq<int>>,
                                   free: map<int, seq<int>>, live: set<int>, b: int)
    requires Sensible(l) && AllOk(l, slabs, next, objs, free, live) && b in slabs && slabs[b].free > 0
    ensures var h := slabs[b];
            var o := h.tags - l.size;
            && o !in live && PageOf(o) == b && o in objs[b] && b in free && free[b] != [] && o == free[b][0]
            && AllOk(l, slabs[b := h.(free := h.free - 1, tags := next(h.tags))], next, objs, free[b := free[b][1..]],
                live + {o})
  {
    var h := slabs[b];
    var o := h.tags - l.size;
    assert OkAt(l, slabs, next, objs, free, live, b);
    TakeOk(l, h, next, b, objs[b], free[b], live);
    InPage(l, b, objs[b], o);
    var slabs', free' := slabs[b := h.(free := h.free - 1, tags := next(h.tags))], free[b := free[b][1..]];
    forall c | c in slabs' ensures OkAt(l, slabs', next, objs, free', live + {o}, c) {
      if c != b {
        assert OkAt(l, slabs, next, objs, free, live, c);
        OtherSlab(l, slabs[c], next, c, objs[c], free[c], live, live + {o}, o, 0);
      }
    }
  }

  lemma {:induction false} GiveAll(l: Layout, slabs: map<int, Header>, next: int -> int, objs: map<int, seq<int>>,
                                   free: map<int, seq<int>>, live: set<int>, b: int, o: int)
    requires Sensible(l) && AllOk(l, slabs, next, objs, free, live) && b in slabs && o in objs[b] && o in live
    ensures var h := slabs[b];
            AllOk(l, slabs[b := h.(free := h.free + 1, tags := o + l.size)], Update(next, o + l.size, h.tags), objs,
                free[b := [o] + free[b]], live - {o})
  {
    var h := slabs[b];
    assert OkAt(l, slabs, next, objs, free, live, b);
    GiveOk(l, h, next, b, objs[b], free[b], live, o);
    InPage(l, b, objs[b], o);
    var slabs', next', free' := slabs[b := h.(free := h.free + 1, tags := o + l.size)],
        Update(next, o + l.size, h.tags), free[b := [o] + free[b]];
    forall c | c in slabs' ensures OkAt(l, slabs', next', objs, free', live - {o}, c) {
      if c != b {
        assert OkAt(l, slabs, next, objs, free, live, c);
        OtherSlab(l, slabs[c], next, c, objs[c], free[c], live, live - {o}, o, h.tags);
      }
    }
  }

  /** A tag written in a page that is no slab yet. */
  lemma {:induction false} PushAll(l: Layout, slabs: map<int, Header>, next: int -> int, objs: map<int, seq<int>>,
                                   free: map<int, seq<int>>, live: set<int>,
                                   base: int, o: int, v: int)
    requires Sensible(l) && AllOk(l, slabs, next, objs, free, live) && base !in slabs && PageOf(o) == base && o !in live
    ensures AllOk(l, slabs, Update(next, o + l.size, v), objs, free, live)
  {
    var next' := Update(next, o + l.size, v);
    forall c | c in slabs ensures OkAt(l, slabs, next', objs, free, live, c) {
      assert OkAt(l, slabs, next, objs, free, live, c);
      OtherSlab(l, slabs[c], next, c, objs[c], free[c], live, live, o, v);
    }
  }

  /** The slab under construction: the objects so far are all free. */
  ghost predicate Growing(l: Layout, next: int -> int, tags: int, base: int, os: seq<int>, fs: seq<int>, ptr: int) {
    && Laid(os, base, l.padded) && Chain(next, tags, fs, l.size) && NoDup(fs)
    && ptr == (if os == [] then base else os[|os| - 1] + l.padded)
    && (forall o {:trigger o in fs} {:trigger o in os} :: o in fs <==> o in os)
    && (forall o {:trigger o in os} :: o in os ==> base <= o < ptr)
  }

  lemma {:induction false} Grown(l: Layout, next: int -> int, tags: int, base: int, os: seq<int>, fs: seq<int>,
                                 ptr: int)
    requires Sensible(l) && Growing(l, next, tags, base, os, fs, ptr) && base > 0 && base % 4096 == 0 &&
             ptr + l.padded <= base + 4032
    ensures Growing(l, Update(next, ptr + l.size, tags), ptr + l.size, base, os + [ptr], [ptr] + fs,
            ptr + l.padded) && PageOf(ptr) == base
  {
    assert base <= ptr by { if os != [] { assert os[|os| - 1] in os; } }
    ChainPush(next, tags, fs, l.size, ptr);
    var os' := os + [ptr];
    forall i | 0 < i < |os'| ensures Follows(os', i, l.padded) {
      if i < |os| { assert Follows(os, i, l.padded); }
    }
  }
}