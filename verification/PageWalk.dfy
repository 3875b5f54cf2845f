/**
 The slot walk over page tables (paging.c:24-97, paging.h:52-85) and the loops over it that map and
 unmap pages (mm.c:384-439).

 Addresses are page numbers. Levels are those of struct pt_iter: 3 is the root, 0 holds the pages.
 */
module PageWalk {

  import opened Common

  type Frame = int

  datatype Entry = Entry(present: bool, large: bool, frame: Frame, flags: int)

  /** Every frame can be read as a table of PT_SIZE entries. */
  type Memory = Frame -> seq<Entry>

  const PT_SIZE := 512
  const TOP_LEVEL := 3
  const PAGES := 68719476736
  const HALF := 34359738368
  const TOP := 0x10_0000_0000_0000
  const ABSENT := Entry(false, false, 0, 0)

  ghost predicate Tables(mem: Memory) {
    forall f {:trigger mem(f)} :: |mem(f)| == PT_SIZE
  }

  // ----- addresses -----

  /** The pages covered by one slot of a level. */
  function Span(level: int): int {
    if level <= 0 then 1 else if level == 1 then 512 else if level == 2 then 262144 else 134217728
  }

  /** pml1_i to pml4_i: the index of a page in the table of a level. */
  function Index(v: int, level: int): int {
    v / Span(level) % PT_SIZE
  }

  ghost predicate Digits(idx: seq<int>) {
    |idx| == 4 && forall i :: 0 <= i < 4 ==> 0 <= idx[i] < PT_SIZE
  }

  /** The linear address put together from one index per level. */
  function Linear(idx: seq<int>): int
    requires |idx| == 4
  {
    idx[3] * 134217728 + idx[2] * 262144 + idx[1] * 512 + idx[0]
  }

  function DigitsOf(v: int): seq<int> {
    [Index(v, 0), Index(v, 1), Index(v, 2), Index(v, 3)]
  }

  /** The indices and the linear address determine each other. */
  lemma DigitsLinear(idx: seq<int>)
    requires Digits(idx)
    ensures 0 <= Linear(idx) < PAGES && DigitsOf(Linear(idx)) == idx
  {
    var v := Linear(idx);
    assert v / 512 == idx[3] * 262144 + idx[2] * 512 + idx[1];
    assert v / 262144 == idx[3] * 512 + idx[2];
    assert v / 134217728 == idx[3];
  }

  lemma LinearDigits(v: int)
    requires 0 <= v < PAGES
    ensures Digits(DigitsOf(v)) && Linear(DigitsOf(v)) == v
  {
    assert v / 262144 == v / 512 / 512 && v / 134217728 == v / 512 / 512 / 512;
  }

  /** The addresses that exist: the lowest and the highest of 2^52 pages. */
  predicate IsCanonical(a: int) {
    0 <= a < HALF || TOP - HALF <= a < TOP
  }

  /** canonical: the upper half of the linear addresses moves to the top of the address space. */
  function Canonical(v: int): int {
    if v < HALF then v else v + (TOP - PAGES)
  }

  /** linear: the page that a canonical address stands for; only these bits choose the indices. */
  function Decanonical(a: int): int {
    a % PAGES
  }

  /** canonical gives the one canonical address of a page, and linear the page. */
  lemma CanonicalRoundTrip(v: int)
    requires 0 <= v < PAGES
    ensures IsCanonical(Canonical(v)) && Decanonical(Canonical(v)) == v
    ensures forall a :: IsCanonical(a) && Decanonical(a) == v ==> a == Canonical(v)
  {
    assert TOP == 65536 * PAGES;
    if v >= HALF { assert Canonical(v) == v + 65535 * PAGES; }
    forall a | IsCanonical(a) && Decanonical(a) == v ensures a == Canonical(v) {
      if a >= HALF { assert a - 65535 * PAGES == a % PAGES; }
    }
  }

  /** Inside a slot, canonical addresses run on like pages. */
  lemma SlotAddresses(d: seq<int>, level: int, a: int)
    requires Digits(d) && 0 <= level <= TOP_LEVEL && (forall i :: 0 <= i < level ==> d[i] == 0) && IsCanonical(a)
    requires Linear(d) <= Decanonical(a) < Linear(d) + Span(level)
    ensures Canonical(Linear(d)) <= a < Canonical(Linear(d)) + Span(level)
  {
    DigitsLinear(d);
    var v := Decanonical(a);
    CanonicalRoundTrip(v);
    LowZeros(d, level);
    assert HALF % Span(level) == 0;
    assert v < HALF <==> Linear(d) < HALF;
  }

  /** The slot after a slot begins where that one ends, unless the gap between the two halves is there. */
  lemma NextAddress(v: int, level: int, w: int)
    requires 0 <= v < w < PAGES && 0 <= level <= TOP_LEVEL && v % Span(level) == 0 && w == v + Span(level)
    ensures IsCanonical(Canonical(w))
    ensures Canonical(w) == if Canonical(v) + Span(level) == HALF then TOP - HALF else Canonical(v) + Span(level)
  {
    CanonicalRoundTrip(w);
    assert HALF % Span(level) == 0;
    assert v < HALF ==> w <= HALF;
  }

  // ----- the path of a page -----

  predicate Down(e: Entry) {
    e.present && !e.large
  }

  /** The frame of the table of a level on the path that the indices choose. */
  ghost function TableOf(mem: Memory, root: Frame, idx: seq<int>, level: int): Frame
    requires Tables(mem) && Digits(idx) && 0 <= level <= TOP_LEVEL
    decreases TOP_LEVEL - level
  {
    if level == TOP_LEVEL then root else mem(TableOf(mem, root, idx, level + 1))[idx[level + 1]].frame
  }

  /** The path goes down to this level: above it, every entry points at a table. */
  ghost predicate Open(mem: Memory, root: Frame, idx: seq<int>, level: int)
    requires Tables(mem) && Digits(idx) && 0 <= level <= TOP_LEVEL
    decreases TOP_LEVEL - level
  {
    level == TOP_LEVEL || (Open(mem, root, idx, level + 1) &&
        Down(mem(TableOf(mem, root, idx, level + 1))[idx[level + 1]]))
  }

  /** The path to a level depends only on the indices above it. */
  lemma {:induction false} PathSame(mem: Memory, root: Frame, a: seq<int>, b: seq<int>, level: int)
    requires Tables(mem) && Digits(a) && Digits(b) && 0 <= level <= TOP_LEVEL
    requires forall i :: level < i <= TOP_LEVEL ==> a[i] == b[i]
    ensures TableOf(mem, root, a, level) == TableOf(mem, root, b, level)
    ensures Open(mem, root, a, level) == Open(mem, root, b, level)
    decreases TOP_LEVEL - level
  {
    if level < TOP_LEVEL { PathSame(mem, root, a, b, level + 1); }
  }

  lemma {:induction false} OpenAbove(mem: Memory, root: Frame, idx: seq<int>, low: int, high: int)
    requires Tables(mem) && Digits(idx) && 0 <= low <= high <= TOP_LEVEL && Open(mem, root, idx, low)
    ensures Open(mem, root, idx, high)
    ensures low < high ==> Down(mem(TableOf(mem, root, idx, high))[idx[high]])
    decreases high - low
  {
    if low < high { OpenAbove(mem, root, idx, low + 1, high); }
  }

  // ----- the iterator -----

  class PtIter {
    var level: int
    const pt: array<Frame>
    const idx: array<int>
    var addr: int

    ghost predicate Shape()
      reads this, idx
    {
      pt != idx && pt.Length == 4 && idx.Length == 4 && Digits(idx[..]) && 0 <= level <= TOP_LEVEL
    }

    /**
     The tables are those on the path of the indices, the path ends here because the slot holds a
     page, a large page or nothing, and the address is that of the slot's first page.
     */
    ghost predicate Consistent(mem: Memory, root: Frame)
      requires Tables(mem)
      reads this, pt, idx
    {
      && Shape()
      && addr == Canonical(Linear(idx[..]))
      && (forall i :: 0 <= i < level ==> idx[i] == 0 && pt[i] == 0)
      && (forall i :: level <= i <= TOP_LEVEL ==> pt[i] == TableOf(mem, root, idx[..], i))
      && Open(mem, root, idx[..], level)
      && (level == 0 || !Down(mem(pt[level])[idx[level]]))
    }

    constructor ()
      ensures fresh(pt) && fresh(idx) && Shape() && idx[..] == [0, 0, 0, 0]
    {
      pt, idx := new Frame[4](i => 0), new int[4](i => 0);
      level, addr := 0, 0;
    }

    /** The indices that come after `d`: a carry into level `l` clears the levels below. */
    function Carried(d: seq<int>, l: int): seq<int>
      requires Digits(d) && 0 <= l <= TOP_LEVEL
    {
      seq(4, i requires 0 <= i < 4 => if i < l then 0 else if i == l then d[i] + 1 else d[i])
    }

    lemma CarryAdds(d: seq<int>, low: int, l: int)
      requires Digits(d) && 0 <= low <= l <= TOP_LEVEL && d[l] < PT_SIZE - 1
      requires forall i :: 0 <= i < low ==> d[i] == 0
      requires forall i :: low <= i < l ==> d[i] == PT_SIZE - 1
      ensures Digits(Carried(d, l)) && Linear(Carried(d, l)) == Linear(d) + Span(low)
    {
    }

    /** Where the carry leads: the next slot and its address. */
    lemma CarryPlace(d: seq<int>, low: int, l: int)
      requires Digits(d) && 0 <= low <= l <= TOP_LEVEL && d[l] < PT_SIZE - 1
      requires forall i :: 0 <= i < low ==> d[i] == 0
      requires forall i :: low <= i < l ==> d[i] == PT_SIZE - 1
      ensures var e := Carried(d, l);
              && Digits(e) && Linear(e) == Linear(d) + Span(low) < PAGES && IsCanonical(Canonical(Linear(e)))
              && Canonical(Linear(e)) == var a := Canonical(Linear(d)) + Span(low); if a == HALF then TOP - HALF else a
    {
      CarryAdds(d, low, l);
      DigitsLinear(d);
      DigitsLinear(Carried(d, l));
      LowZeros(d, low);
      NextAddress(Linear(d), low, Linear(Carried(d, l)));
    }

    lemma Address(d: seq<int>)
      requires Digits(d)
      ensures 0 <= Linear(d) < PAGES && IsCanonical(Canonical(Linear(d)))
    {
      DigitsLinear(d);
      CanonicalRoundTrip(Linear(d));
    }

    /** Follow the indices `d` down from the current level until the path ends. */
    method Descend(mem: Memory, ghost root: Frame, d: seq<int>)
      requires Tables(mem) && Digits(d) && Shape()
      requires forall i :: level <= i <= TOP_LEVEL ==> idx[i] == d[i] && pt[i] == TableOf(mem, root, d, i)
      requires Open(mem, root, d, level)
      modifies this`level, pt, idx
      ensures Shape() && level <= old(level)
      ensures forall i :: level <= i <= TOP_LEVEL ==> idx[i] == d[i] && pt[i] == TableOf(mem, root, d, i)
      ensures forall i :: 0 <= i < level ==> idx[i] == old(idx[i]) && pt[i] == old(pt[i])
      ensures Open(mem, root, d, level) && (level == 0 || !Down(mem(pt[level])[idx[level]]))
    {
      var pte := mem(pt[level])[idx[level]];
      while Down(pte) && level != 0
        invariant Shape() && level <= old(level)
        invariant forall i :: level <= i <= TOP_LEVEL ==> idx[i] == d[i] && pt[i] == TableOf(mem, root, d, i)
        invariant forall i :: 0 <= i < level ==> idx[i] == old(idx[i]) && pt[i] == old(pt[i])
        invariant Open(mem, root, d, level) && pte == mem(pt[level])[idx[level]]
        decreases level
      {
        var table := pte.frame;
        level := level - 1;
        idx[level] := d[level];
        pt[level] := table;
        pte := mem(table)[d[level]];
      }
    }

    /** The slot whose path has these indices, once the levels below the slot are cleared. */
    lemma Arrived(mem: Memory, root: Frame, d: seq<int>)
      requires Tables(mem) && Digits(d) && Shape() && addr == Canonical(Linear(idx[..]))
      requires forall i :: 0 <= i < level ==> idx[i] == 0 && pt[i] == 0
      requires forall i :: level <= i <= TOP_LEVEL ==> idx[i] == d[i] && pt[i] == TableOf(mem, root, d, i)
      requires Open(mem, root, d, level) && (level == 0 || !Down(mem(pt[level])[idx[level]]))
      ensures Consistent(mem, root)
    {
      forall i | level <= i <= TOP_LEVEL ensures pt[i] == TableOf(mem, root, idx[..], i) {
        PathSame(mem, root, d, idx[..], i);
      }
      PathSame(mem, root, d, idx[..], level);
    }

    /** pt_iter_set: the slot around the page at a canonical address, of whatever size. */
    method Set(mem: Memory, root: Frame, a: int)
      requires Tables(mem) && pt.Length == 4 && idx.Length == 4 && pt != idx
      modifies this, pt, idx
      ensures root == 0 ==> level == 0 && addr == 0 && idx[..] == [0, 0, 0, 0] && pt[..] == [0, 0, 0, 0]
      ensures root != 0 ==> Consistent(mem, root)
      ensures root != 0 ==> Linear(idx[..]) <= Decanonical(a) < Linear(idx[..]) + Span(level)
      ensures root != 0 && IsCanonical(a) ==> IsCanonical(addr) && addr <= a < addr + Span(level)
    {
      forall i | 0 <= i < 4 { idx[i] := 0; }
      forall i | 0 <= i < 4 { pt[i] := 0; }
      level, addr := 0, 0;
      if root != 0 {
        Approach(mem, root, Decanonical(a));
        Address(idx[..]);
        if IsCanonical(a) { SlotAddresses(idx[..], level, a); }
      }
    }

    /** From the root down to the slot around page `v`. */
    method Approach(mem: Memory, root: Frame, v: int)
      requires Tables(mem) && pt.Length == 4 && idx.Length == 4 && pt != idx && 0 <= v < PAGES
      requires forall i :: 0 <= i < 4 ==> idx[i] == 0 && pt[i] == 0
      modifies this, pt, idx
      ensures Consistent(mem, root) && Linear(idx[..]) <= v < Linear(idx[..]) + Span(level)
    {
      LinearDigits(v);
      var d := DigitsOf(v);
      level := TOP_LEVEL;
      pt[level] := root;
      idx[level] := d[level];
      Descend(mem, root, d);
      addr := Canonical(Linear(idx[..]));
      Arrived(mem, root, d);
    }

    /** The level that takes the carry: the lowest from here up that is not at its last index, or else the top. */
    method CarryLevel() returns (l: int)
      requires Shape()
      ensures level <= l <= TOP_LEVEL && forall i :: level <= i < l ==> idx[i] == PT_SIZE - 1
      ensures l == TOP_LEVEL || idx[l] < PT_SIZE - 1
    {
      l := level;
      while idx[l] == PT_SIZE - 1 && l != TOP_LEVEL
        invariant level <= l <= TOP_LEVEL
        invariant forall i :: level <= i < l ==> idx[i] == PT_SIZE - 1
      {
        l := l + 1;
      }
    }

    /** Forget the levels below the slot. */
    method ClearBelow()
      requires Shape()
      modifies pt, idx
      ensures Shape()
      ensures forall i :: 0 <= i < level ==> idx[i] == 0 && pt[i] == 0
      ensures forall i :: level <= i < 4 ==> idx[i] == old(idx[i]) && pt[i] == old(pt[i])
    {
      var l := level;
      while l != 0
        invariant Shape() && 0 <= l <= level
        invariant forall i :: l <= i < level ==> idx[i] == 0 && pt[i] == 0
        invariant forall i :: level <= i < 4 ==> idx[i] == old(idx[i]) && pt[i] == old(pt[i])
      {
        l := l - 1;
        pt[l] := 0;
        idx[l] := 0;
      }
    }

    /** The path to the slot after this one starts as the path to this one. */
    lemma CarriedPath(mem: Memory, root: Frame, d: seq<int>, l: int)
      requires Tables(mem) && Consistent(mem, root) && level <= l <= TOP_LEVEL
      requires Digits(d) && forall i :: l < i <= TOP_LEVEL ==> d[i] == idx[i]
      ensures forall i :: l <= i <= TOP_LEVEL ==> pt[i] == TableOf(mem, root, d, i)
      ensures Open(mem, root, d, l)
    {
      forall i | l <= i <= TOP_LEVEL ensures pt[i] == TableOf(mem, root, d, i) {
        PathSame(mem, root, idx[..], d, i);
      }
      OpenAbove(mem, root, idx[..], level, l);
      PathSame(mem, root, idx[..], d, l);
    }

    lemma LastSlot()
      requires Shape() && (forall i :: 0 <= i < level ==> idx[i] == 0) && (forall i :: level <= i < 4 ==>
               idx[i] == PT_SIZE - 1)
      ensures Linear(idx[..]) + Span(level) == PAGES
    {
    }

    /**
     pt_iter_next: on to the slot that begins where this one ends; none is left exactly at the end of the
     address space.
     */
    method Next(mem: Memory, ghost root: Frame) returns (more: bool)
      requires Tables(mem) && Consistent(mem, root)
      modifies this, pt, idx
      ensures Consistent(mem, root)
      ensures more <==> old(Linear(idx[..])) + Span(old(level)) < PAGES
      ensures more ==> Linear(idx[..]) == old(Linear(idx[..])) + Span(old(level))
      ensures IsCanonical(addr)
      ensures more ==> addr == if old(addr) + Span(old(level)) == HALF then TOP - HALF else old(addr) + Span(old(level))
      ensures !more ==> level == old(level) && addr == old(addr) && idx[..] == old(idx[..]) && pt[..] == old(pt[..])
    {
      var l := CarryLevel();
      if idx[l] == PT_SIZE - 1 {
        LastSlot();
        Address(idx[..]);
        return false;
      }
      var d := Carried(idx[..], l);
      CarryPlace(idx[..], level, l);
      CarriedPath(mem, root, d, l);
      Advance(mem, root, d, l);
      more := true;
    }

    method Advance(mem: Memory, ghost root: Frame, d: seq<int>, l: int)
      requires Tables(mem) && Shape() && Digits(d) && level <= l <= TOP_LEVEL
      requires forall i :: 0 <= i < 4 ==> d[i] == if i < l then 0 else if i == l then idx[l] + 1 else idx[i]
      requires forall i :: l <= i <= TOP_LEVEL ==> pt[i] == TableOf(mem, root, d, i)
      requires Open(mem, root, d, l)
      modifies this, pt, idx
      ensures Consistent(mem, root) && idx[..] == d
    {
      idx[l] := idx[l] + 1;
      level := l;
      Descend(mem, root, d);
      ClearBelow();
      addr := Canonical(Linear(idx[..]));
      Arrived(mem, root, d);
    }
  }

  // ----- mapping and unmapping pages -----

  ghost function EntryAt(mem: Memory, root: Frame, d: seq<int>): Entry
    requires Tables(mem) && Digits(d)
  {
    mem(TableOf(mem, root, d, 0))[d[0]]
  }

  /** The tables form a tree: a table of level 0 is on no other path, at no other level. */
  ghost predicate Tree(mem: Memory, root: Frame)
    requires Tables(mem)
  {
    && (forall d, e, l {:trigger TableOf(mem, root, d, 0), TableOf(mem, root, e, l)} ::
          Digits(d) && Digits(e) && 1 <= l <= TOP_LEVEL && Open(mem, root, d, 0) && Open(mem, root, e, l)
          ==> TableOf(mem, root, d, 0) != TableOf(mem, root, e, l))
    && (forall d, e {:trigger TableOf(mem, root, d, 0), TableOf(mem, root, e, 0)} ::
          Digits(d) && Digits(e) && Open(mem, root, d, 0) && Open(mem, root, e, 0) &&
              TableOf(mem, root, d, 0) == TableOf(mem, root, e, 0)
          ==> d[1] == e[1] && d[2] == e[2] && d[3] == e[3])
  }

  /** Every page of the range has a table of level 0. */
  ghost predicate Populated(mem: Memory, root: Frame, begin: int, count: int)
    requires Tables(mem)
  {
    forall d {:trigger Open(mem, root, d, 0)} :: Digits(d) && begin <= Linear(d) < begin + count ==>
        Open(mem, root, d, 0)
  }

  ghost predicate SamePaths(mem: Memory, mem': Memory, root: Frame)
    requires Tables(mem) && Tables(mem')
  {
    forall d, l {:trigger Open(mem', root, d, l)} {:trigger TableOf(mem', root, d, l)} ::
        Digits(d) && 0 <= l <= TOP_LEVEL ==>
      && Open(mem', root, d, l) == Open(mem, root, d, l)
      && (Open(mem, root, d, l) ==> TableOf(mem', root, d, l) == TableOf(mem, root, d, l))
  }

  /** A store into a table of level 0 changes no path. */
  lemma {:induction false} StorePath(mem0: Memory, mem: Memory, root: Frame, d: seq<int>, e: Entry, c: seq<int>, l: int)
    requires Tables(mem0) && Tables(mem) && Tree(mem0, root) && SamePaths(mem0, mem, root)
    requires Digits(d) && Digits(c) && 0 <= l <= TOP_LEVEL && Open(mem0, root, d, 0)
    ensures var leaf := TableOf(mem0, root, d, 0);
            var mem' := Update(mem, leaf, mem(leaf)[d[0] := e]);
            && Tables(mem') && Open(mem', root, c, l) == Open(mem0, root, c, l)
            && (Open(mem0, root, c, l) ==> TableOf(mem', root, c, l) == TableOf(mem0, root, c, l))
    decreases TOP_LEVEL - l
  {
    var leaf := TableOf(mem0, root, d, 0);
    var mem' := Update(mem, leaf, mem(leaf)[d[0] := e]);
    assert Tables(mem');
    if l < TOP_LEVEL {
      StorePath(mem0, mem, root, d, e, c, l + 1);
      assert Open(mem, root, c, l + 1) == Open(mem0, root, c, l + 1);
      if Open(mem0, root, c, l + 1) {
        assert TableOf(mem0, root, c, l + 1) != leaf;
        assert Open(mem, root, c, l) == Open(mem0, root, c, l);
      }
    }
  }

  /**
   Below `mem0`, the pages of [begin, begin + |es|) now hold the entries `es` and all other pages hold what
   they held.
   */
  ghost predicate Wrote(mem0: Memory, mem: Memory, root: Frame, begin: int, es: seq<Entry>)
    requires Tables(mem0) && Tables(mem)
  {
    && SamePaths(mem0, mem, root)
    && (forall d {:trigger EntryAt(mem, root, d)} :: Digits(d) && Open(mem0, root, d, 0) ==>
          EntryAt(mem, root, d) == if begin <= Linear(d) < begin + |es| then es[Linear(d) - begin]
              else EntryAt(mem0, root, d))
    && (forall f {:trigger mem(f)} :: mem(f) == mem0(f) || IsLeaf(mem0, root, f))
  }

  /** The frame holds a table of level 0. */
  ghost predicate IsLeaf(mem: Memory, root: Frame, f: Frame)
    requires Tables(mem)
  {
    exists d {:trigger TableOf(mem, root, d, 0)} :: Digits(d) && Open(mem, root, d, 0) && TableOf(mem, root, d, 0) == f
  }

  lemma StoreNext(mem0: Memory, mem: Memory, root: Frame, begin: int, es: seq<Entry>, d: seq<int>, e: Entry)
    requires Tables(mem0) && Tables(mem) && Tree(mem0, root) && Wrote(mem0, mem, root, begin, es)
    requires Digits(d) && Linear(d) == begin + |es| && Open(mem0, root, d, 0)
    ensures var leaf := TableOf(mem0, root, d, 0);
            var mem' := Update(mem, leaf, mem(leaf)[d[0] := e]);
            Tables(mem') && Wrote(mem0, mem', root, begin, es + [e])
  {
    var leaf := TableOf(mem0, root, d, 0);
    var mem' := Update(mem, leaf, mem(leaf)[d[0] := e]);
    assert Tables(mem');
    forall c, l | Digits(c) && 0 <= l <= TOP_LEVEL
      ensures Open(mem', root, c, l) == Open(mem0, root, c, l)
      ensures Open(mem0, root, c, l) ==> TableOf(mem', root, c, l) == TableOf(mem0, root, c, l)
    {
      StorePath(mem0, mem, root, d, e, c, l);
    }
    forall c | Digits(c) && Open(mem0, root, c, 0)
      ensures EntryAt(mem', root, c) == if begin <= Linear(c) < begin + |es| + 1 then (es + [e])[Linear(c) - begin]
              else EntryAt(mem0, root, c)
    {
      DigitsLinear(c);
      DigitsLinear(d);
      assert EntryAt(mem, root, c) == if begin <= Linear(c) < begin + |es| then es[Linear(c) - begin]
             else EntryAt(mem0, root, c);
      assert TableOf(mem', root, c, 0) == TableOf(mem0, root, c, 0) == TableOf(mem, root, c, 0);
      if TableOf(mem0, root, c, 0) == leaf && c[0] == d[0] { assert c == d; }
    }
  }

  ghost function EntriesOf(mem: Memory, root: Frame, begin: int, count: nat): (r: seq<Entry>)
    requires 0 <= begin && begin + count <= PAGES && Tables(mem)
    ensures |r| == count
  {
    seq(count, j requires 0 <= j < count => LinearDigits(begin + j); EntryAt(mem, root, DigitsOf(begin + j)))
  }

  lemma EntriesAt(mem: Memory, root: Frame, begin: int, count: nat, j: int)
    requires 0 <= begin && begin + count <= PAGES && Tables(mem) && 0 <= j < count && Digits(DigitsOf(begin + j))
    ensures EntriesOf(mem, root, begin, count)[j] == EntryAt(mem, root, DigitsOf(begin + j))
  {
  }

  /** How often the entries refer to a page. */
  ghost function Uses(es: seq<Entry>, p: Frame): nat {
    if es == [] then 0 else Uses(es[..|es| - 1], p) + if es[|es| - 1].present && es[|es| - 1].frame == p then 1 else 0
  }

  lemma UsesAppend(es: seq<Entry>, e: Entry, p: Frame)
    ensures Uses(es + [e], p) == Uses(es, p) + if e.present && e.frame == p then 1 else 0
  {
    assert (es + [e])[..|es|] == es;
  }

  class AddressSpace {
    const root: Frame
    var mem: Memory
    var refs: Frame -> int
    var freed: multiset<Frame>

    constructor (top: Frame, tables: Memory, uses: Frame -> int, returned: multiset<Frame>)
      ensures root == top && mem == tables && refs == uses && freed == returned
    {
      root, mem, refs, freed := top, tables, uses, returned;
    }

    /** What a loop over the range needs: tables that form a tree, and an end that does not wrap around. */
    ghost predicate Walkable(begin: int, count: int)
      reads this
    {
      root != 0 && Tables(mem) && Tree(mem, root) && Fits(begin, count)
    }

    /** The entries of a range of pages, in order. */
    ghost function Row(begin: int, count: nat): (r: seq<Entry>)
      requires 0 <= begin && begin + count <= PAGES && Tables(mem)
      reads this
      ensures |r| == count
    {
      EntriesOf(mem, root, begin, count)
    }

    /** A store at the slot of the iterator. */
    method Store(it: PtIter, e: Entry, ghost mem0: Memory, ghost begin: int, ghost es: seq<Entry>)
      requires Tables(mem0) && Tables(mem) && Tree(mem0, root) && Wrote(mem0, mem, root, begin, es)
      requires it.Consistent(mem, root) && it.level == 0 && Linear(it.idx[..]) == begin + |es|
      modifies this`mem
      ensures Tables(mem) && Wrote(mem0, mem, root, begin, es + [e]) && it.Consistent(mem, root)
    {
      var index, table := it.idx[it.level], it.pt[it.level];
      ghost var d := it.idx[..];
      StoreNext(mem0, mem, root, begin, es, d, e);
      mem := Update(mem, table, mem(table)[index := e]);
    }

    /**
     The walk over [begin, begin + count) has replaced the entries of the first |es| pages by `es` and
     stands at the next page, or in a larger slot around the first.
     */
    ghost predicate Walking(it: PtIter, mem0: Memory, begin: int, count: int, es: seq<Entry>, more: bool)
      reads this, it, it.pt, it.idx
    {
      && Tables(mem0) && Tree(mem0, root) && Fits(begin, count) && Populated(mem0, root, begin, |es|)
      && Tables(mem) && Wrote(mem0, mem, root, begin, es) && |es| <= count
      && (more ==> it.Consistent(mem, root))
      && (more && Linear(it.idx[..]) != begin + |es| ==>
            es == [] && it.level > 0 && Linear(it.idx[..]) <= begin < Linear(it.idx[..]) + Span(it.level))
      && (!more ==> |es| == count > 0)
    }

    /** The same, as a whole. */
    ghost predicate Underway(it: PtIter, mem0: Memory, begin: int, count: int, es: seq<Entry>, more: bool)
      reads this, it, it.pt, it.idx
    {
      forall look {:trigger Inside(WalkPart, look)} :: Inside(WalkPart, look) ==>
          Walking(it, mem0, begin, count, es, more)
    }

    /** The walk ends only after the last page of the range. */
    lemma WalkEnds(it: PtIter, mem0: Memory, begin: int, count: int, es: seq<Entry>, more: bool)
      requires Underway(it, mem0, begin, count, es, more) && Tables(mem0) && Fits(begin, count) &&
               !(more && it.addr < Canonical(begin) + count)
      ensures |es| == count && Clear(mem0, root, begin, count) && Tables(mem) && Wrote(mem0, mem, root, begin, es)
    {
      assert Inside(WalkPart, true);
      if count == 0 {
        LinearDigits(begin);
        DigitsLinear(it.idx[..]);
        assert it.idx[..] == DigitsOf(begin);
        SlotHeads(it, mem0, begin);
      }
    }

    lemma SlotHeads(it: PtIter, mem0: Memory, begin: int)
      requires Tables(mem0) && Tables(mem) && SamePaths(mem0, mem, root) && it.Consistent(mem, root) &&
               Linear(it.idx[..]) == begin
      requires 0 <= begin < PAGES && it.idx[..] == DigitsOf(begin)
      ensures Heads(mem0, root, begin)
    {
      var d := DigitsOf(begin);
      forall l | 0 < l <= TOP_LEVEL && Open(mem0, root, d, l) && !Open(mem0, root, d, l - 1)
          ensures begin % Span(l) == 0 {
        if l > it.level { OpenAbove(mem, root, d, it.level, l - 1); }
        if l < it.level { OpenAbove(mem, root, d, l, it.level); }
        assert l == it.level;
        LowZeros(d, l);
      }
    }

    /** The assertion on the level fires only when a page of the range has no table of level 0. */
    lemma Stuck(it: PtIter, mem0: Memory, begin: int, count: int, es: seq<Entry>)
      requires Walking(it, mem0, begin, count, es, true) && it.addr < Canonical(begin) + count && it.level > 0
      ensures !Clear(mem0, root, begin, count)
    {
      var v := begin + |es|;
      LinearDigits(v);
      var d, l := DigitsOf(v), it.level;
      DigitsLinear(it.idx[..]);
      SameSlot(it.idx[..], d, l);
      PathSame(mem, root, it.idx[..], d, l);
      assert Open(mem, root, d, l) && !Open(mem, root, d, l - 1);
      assert Open(mem0, root, d, l) && !Open(mem0, root, d, l - 1);
      if |es| < count {
        if Open(mem0, root, d, 0) { OpenAbove(mem0, root, d, 0, l - 1); }
      } else {
        NotHead(it.idx[..], v, l);
      }
    }

    /** The body of a walk: a store at the current slot, then one step. */
    method Visit(it: PtIter, e: Entry, ghost mem0: Memory, ghost begin: int, ghost count: int, ghost es: seq<Entry>)
                 returns (more: bool)
      requires Walking(it, mem0, begin, count, es, true) && |es| < count && it.level == 0
      modifies this`mem, it, it.pt, it.idx
      ensures Walking(it, mem0, begin, count, es + [e], more)
    {
      Reached(it, mem0, begin, es);
      Store(it, e, mem0, begin, es);
      more := it.Next(mem, root);
    }

    lemma Reached(it: PtIter, mem0: Memory, begin: int, es: seq<Entry>)
      requires Tables(mem0) && Tables(mem) && SamePaths(mem0, mem, root) && it.Consistent(mem, root) && it.level == 0
      requires Linear(it.idx[..]) == begin + |es| && Populated(mem0, root, begin, |es|)
      ensures Populated(mem0, root, begin, |es| + 1)
    {
      forall d | Digits(d) && begin <= Linear(d) < begin + |es| + 1 ensures Open(mem0, root, d, 0) {
        DigitsLinear(d);
        DigitsLinear(it.idx[..]);
        assert Linear(d) == begin + |es| ==> d == it.idx[..];
      }
    }

    /** A page of the range is left to visit, when the test of the loop holds and the slot is a page. */
    lemma WalkGoesOn(it: PtIter, mem0: Memory, begin: int, count: int, es: seq<Entry>)
      requires Walking(it, mem0, begin, count, es, true) && it.addr < Canonical(begin) + count && it.level == 0
      ensures |es| < count && Linear(it.idx[..]) == begin + |es|
    {
    }

    method Start(begin: int, ghost count: int) returns (it: PtIter)
      requires Walkable(begin, count)
      ensures fresh(it) && fresh(it.pt) && fresh(it.idx) && Underway(it, mem, begin, count, [], true)
    {
      it := new PtIter();
      CanonicalRoundTrip(begin);
      it.Set(mem, root, Canonical(begin));
    }

    /**
     __mmap_pages: page begin + j is mapped to pages[j], one after the other and each once; every other
     page keeps its mapping; each use of a page is counted. The result is false when an assertion on the
     level fires, which is exactly when some page has no table of level 0.
     */
    method MapPages(begin: int, pages: seq<Frame>, flags: int) returns (ok: bool)
      requires Walkable(begin, |pages|)
      modifies this`mem, this`refs
      ensures ok <==> Clear(old(mem), root, begin, |pages|)
      ensures ok ==> Tables(mem) && Wrote(old(mem), mem, root, begin, Mappings(pages, flags))
      ensures ok ==> forall p {:trigger refs(p)} :: refs(p) == old(refs)(p) + multiset(pages)[p]
    {
      var it := Start(begin, |pages|);
      var i, more := 0, true;
      while more && it.addr < Canonical(begin) + |pages|
        invariant 0 <= i <= |pages| && fresh(it) && fresh(it.pt) && fresh(it.idx)
        invariant Underway(it, old(mem), begin, |pages|, Mappings(pages[..i], flags), more)
        invariant Counting(old(refs), refs, pages[..i])
        decreases |pages| - i, if more then 1 else 0
      {
        ok, more := MapOne(it, pages, i, flags, old(mem), old(refs), begin);
        if !ok { return; }
        i := i + 1;
      }
      WalkEnds(it, old(mem), begin, |pages|, Mappings(pages[..i], flags), more);
      assert pages[..i] == pages;
      ok := true;
    }

    /** The body of the loop in __mmap_pages. */
    method MapOne(it: PtIter, pages: seq<Frame>, i: int, flags: int, ghost mem0: Memory, ghost refs0: Frame -> int,
                  ghost begin: int)
      returns (ok: bool, more: bool)
      requires 0 <= i <= |pages| && Underway(it, mem0, begin, |pages|, Mappings(pages[..i], flags), true)
      requires it.addr < Canonical(begin) + |pages| && Counting(refs0, refs, pages[..i]) && Tables(mem0) &&
               Fits(begin, |pages|)
      modifies this`mem, this`refs, it, it.pt, it.idx
      ensures !ok ==> !Clear(mem0, root, begin, |pages|)
      ensures ok ==> i < |pages| && Underway(it, mem0, begin, |pages|, Mappings(pages[..i + 1], flags), more)
      ensures ok ==> Counting(refs0, refs, pages[..i + 1])
    {
      assert Inside(WalkPart, true);
      if it.level != 0 {
        Stuck(it, mem0, begin, |pages|, Mappings(pages[..i], flags));
        return false, false;
      }
      WalkGoesOn(it, mem0, begin, |pages|, Mappings(pages[..i], flags));
      assert pages[..i + 1] == pages[..i] + [pages[i]];
      MappingsAppend(pages[..i], pages[i], flags);
      refs := Update(refs, pages[i], refs(pages[i]) + 1);
      more := Visit(it, Entry(true, false, pages[i], flags), mem0, begin, |pages|, Mappings(pages[..i], flags));
      ok := true;
    }

    /**
     __munmap_pages: every page of the range loses its entry, and each entry that was present gives back
     one use of its page. The result is false when the assertion on the level fires.
     */
    method UnmapPages(begin: int, count: nat) returns (ok: bool)
      requires Walkable(begin, count)
      modifies this`mem, this`refs, this`freed
      ensures ok <==> Clear(old(mem), root, begin, count)
      ensures ok ==> Tables(mem) && Wrote(old(mem), mem, root, begin, Absent(count))
      ensures ok ==> GivingBack(old(refs), refs, old(freed), freed, old(Row(begin, count)))
    {
      var it := Start(begin, count);
      ghost var i: nat, row := 0, EntriesOf(mem, root, begin, count);
      assert row[..0] == [];
      NothingGiven(refs, freed);
      var more := true;
      while more && it.addr < Canonical(begin) + count
        invariant 0 <= i <= count && fresh(it) && fresh(it.pt) && fresh(it.idx)
        invariant Underway(it, old(mem), begin, count, Absent(i), more)
        invariant GaveBack(old(refs), refs, old(freed), freed, row[..i])
        decreases count - i, if more then 1 else 0
      {
        ok, more := UnmapOne(it, old(mem), old(refs), old(freed), begin, count, i);
        if !ok { return; }
        i := i + 1;
      }
      WalkEnds(it, old(mem), begin, count, Absent(i), more);
      assert row[..i] == row;
      assert Inside(WalkPart, true);
      ok := true;
    }

    /** The body of the loop in __munmap_pages. */
    method UnmapOne(it: PtIter, ghost mem0: Memory, ghost refs0: Frame -> int, ghost freed0: multiset<Frame>,
                    begin: int, count: nat, ghost i: nat)
      returns (ok: bool, more: bool)
      requires i <= count && Underway(it, mem0, begin, count, Absent(i), true) && it.addr < Canonical(begin) + count
      requires Tables(mem0) && Fits(begin, count) &&
               GaveBack(refs0, refs, freed0, freed, EntriesOf(mem0, root, begin, count)[..i])
      modifies this`mem, this`refs, this`freed, it, it.pt, it.idx
      ensures !ok ==> !Clear(mem0, root, begin, count)
      ensures ok ==> i < count && Underway(it, mem0, begin, count, Absent(i + 1), more)
      ensures ok ==> GaveBack(refs0, refs, freed0, freed, EntriesOf(mem0, root, begin, count)[..i + 1])
    {
      assert Inside(WalkPart, true);
      if it.level != 0 {
        Stuck(it, mem0, begin, count, Absent(i));
        return false, false;
      }
      WalkGoesOn(it, mem0, begin, count, Absent(i));
      var pte := mem(it.pt[it.level])[it.idx[it.level]];
      Untouched(it, mem0, begin, count, i);
      ghost var row := EntriesOf(mem0, root, begin, count);
      assert row[..i + 1] == row[..i] + [row[i]];
      PutPage(pte, refs0, freed0, row[..i]);
      more := Visit(it, ABSENT, mem0, begin, count, Absent(i));
      assert Absent(i) + [ABSENT] == Absent(i + 1);
      ok := true;
    }

    /** The slot about to be visited still holds what it held at the start. */
    lemma Untouched(it: PtIter, mem0: Memory, begin: int, count: int, i: nat)
      requires Walking(it, mem0, begin, count, Absent(i), true) && i < count && it.level == 0
      ensures mem(it.pt[0])[it.idx[0]] == EntriesOf(mem0, root, begin, count)[i]
    {
      var d := it.idx[..];
      DigitsLinear(d);
      assert Open(mem0, root, d, 0);
      assert EntryAt(mem, root, d) == EntryAt(mem0, root, d);
    }

    /** put_page, when the entry was present. */
    method PutPage(pte: Entry, ghost refs0: Frame -> int, ghost freed0: multiset<Frame>, ghost before: seq<Entry>)
      requires GivingBack(refs0, refs, freed0, freed, before)
      modifies this`refs, this`freed
      ensures GivingBack(refs0, refs, freed0, freed, before + [pte])
    {
      forall p ensures Uses(before + [pte], p) == Uses(before, p) + if pte.present && pte.frame == p then 1 else 0 {
        UsesAppend(before, pte, p);
      }
      if pte.present {
        refs := Update(refs, pte.frame, refs(pte.frame) - 1);
        if refs(pte.frame) == 0 { freed := freed + multiset{pte.frame}; }
      }
    }

    /**
     Unmapping undoes mapping: the entries, the use counts and, as long as somebody else uses the pages, the
     free pages.
     */
    method MapThenUnmap(begin: int, pages: seq<Frame>, flags: int)
      requires Walkable(begin, |pages|) && Clear(mem, root, begin, |pages|) && Row(begin, |pages|) == Absent(|pages|)
      modifies this`mem, this`refs, this`freed
      ensures Tables(mem) && Wrote(old(mem), mem, root, begin, Absent(|pages|))
      ensures forall p {:trigger refs(p)} :: refs(p) == old(refs)(p)
      ensures (forall p :: p in pages ==> old(refs)(p) > 0) ==> freed == old(freed)
    {
      var ok := MapPages(begin, pages, flags);
      StillClear(old(mem), mem, root, begin, |pages|, Mappings(pages, flags));
      ghost var mid := mem;
      ok := UnmapPages(begin, |pages|);
      forall p ensures Uses(Mappings(pages, flags), p) == multiset(pages)[p] { UsesMappings(pages, flags, p); }
      WroteTwice(old(mem), mid, mem, root, begin, Mappings(pages, flags), Absent(|pages|));
      if forall p :: p in pages ==> old(refs)(p) > 0 {
        assert forall p :: freed[p] == old(freed)[p];
      }
    }
  }

  ghost function Mappings(pages: seq<Frame>, flags: int): (es: seq<Entry>)
    ensures |es| == |pages|
  {
    seq(|pages|, j requires 0 <= j < |pages| => Entry(true, false, pages[j], flags))
  }

  ghost function Absent(count: nat): (es: seq<Entry>)
    ensures |es| == count
  {
    seq(count, j requires 0 <= j < count => ABSENT)
  }

  ghost predicate GivingBack(refs0: Frame -> int, refs: Frame -> int, freed0: multiset<Frame>, freed: multiset<Frame>,
                             es: seq<Entry>) {
    && (forall p {:trigger refs(p)} :: refs(p) == refs0(p) - Uses(es, p))
    && (forall p {:trigger freed[p]} :: freed[p] == freed0[p] + if refs0(p) > 0 >= refs(p) then 1 else 0)
  }

  /** The same, as a whole. */
  ghost predicate GaveBack(refs0: Frame -> int, refs: Frame -> int, freed0: multiset<Frame>, freed: multiset<Frame>,
                           es: seq<Entry>) {
    forall look {:trigger Inside(WalkPart, look)} :: Inside(WalkPart, look) ==>
        GivingBack(refs0, refs, freed0, freed, es)
  }

  lemma NothingGiven(refs: Frame -> int, freed: multiset<Frame>)
    ensures GaveBack(refs, refs, freed, freed, [])
  {
    forall p ensures Uses([], p) == 0 {
    }
  }

  lemma {:induction false} UsesMappings(pages: seq<Frame>, flags: int, p: Frame)
    ensures Uses(Mappings(pages, flags), p) == multiset(pages)[p]
  {
    if pages != [] {
      var n := |pages| - 1;
      assert pages == pages[..n] + [pages[n]];
      UsesMappings(pages[..n], flags, p);
      MappingsAppend(pages[..n], pages[n], flags);
      UsesAppend(Mappings(pages[..n], flags), Entry(true, false, pages[n], flags), p);
    }
  }

  lemma StillTree(mem: Memory, mem': Memory, root: Frame)
    requires Tables(mem) && Tables(mem') && Tree(mem, root) && SamePaths(mem, mem', root)
    ensures Tree(mem', root)
  {
  }

  /** Stores into the pages of a range leave it populated and the tables a tree. */
  lemma StillClear(mem: Memory, mem': Memory, root: Frame, begin: int, count: int, es: seq<Entry>)
    requires Tables(mem) && Tables(mem') && Tree(mem, root) && Fits(begin, count) && Clear(mem, root, begin, count)
    requires |es| == count && Wrote(mem, mem', root, begin, es)
    ensures Tree(mem', root) && Clear(mem', root, begin, count) && EntriesOf(mem', root, begin, count) == es
  {
    StillTree(mem, mem', root);
    PathsClear(mem, mem', root, begin, count);
    forall j | 0 <= j < count ensures EntriesOf(mem', root, begin, count)[j] == es[j] {
      WroteAt(mem, mem', root, begin, es, j);
    }
  }

  lemma PathsClear(mem: Memory, mem': Memory, root: Frame, begin: int, count: int)
    requires Tables(mem) && Tables(mem') && SamePaths(mem, mem', root) && Fits(begin, count) &&
             Clear(mem, root, begin, count)
    ensures Clear(mem', root, begin, count)
  {
    LinearDigits(begin);
  }

  lemma WroteAt(mem: Memory, mem': Memory, root: Frame, begin: int, es: seq<Entry>, j: int)
    requires Tables(mem) && Tables(mem') && Fits(begin, |es|) && Populated(mem, root, begin, |es|)
    requires Wrote(mem, mem', root, begin, es) && 0 <= j < |es|
    ensures EntriesOf(mem', root, begin, |es|)[j] == es[j]
  {
    LinearDigits(begin + j);
    var d := DigitsOf(begin + j);
    assert Open(mem, root, d, 0);
    WrotePage(mem, mem', root, begin, es, d, j);
    EntriesAt(mem', root, begin, |es|, j);
  }

  lemma WrotePage(mem: Memory, mem': Memory, root: Frame, begin: int, es: seq<Entry>, d: seq<int>, j: int)
    requires Tables(mem) && Tables(mem') && Wrote(mem, mem', root, begin, es) && Digits(d) && Open(mem, root, d, 0)
    requires 0 <= j < |es| && Linear(d) == begin + j
    ensures EntryAt(mem', root, d) == es[j]
  {
  }

  lemma WroteTwice(mem0: Memory, mem1: Memory, mem2: Memory, root: Frame, begin: int, es: seq<Entry>, fs: seq<Entry>)
    requires Tables(mem0) && Tables(mem1) && Tables(mem2) && |es| == |fs|
    requires Wrote(mem0, mem1, root, begin, es) && Wrote(mem1, mem2, root, begin, fs)
    ensures Wrote(mem0, mem2, root, begin, fs)
  {
    forall d | Digits(d) && Open(mem0, root, d, 0)
      ensures EntryAt(mem2, root, d) == if begin <= Linear(d) < begin + |fs| then fs[Linear(d) - begin]
              else EntryAt(mem0, root, d)
    {
      assert Open(mem1, root, d, 0);
      assert EntryAt(mem1, root, d) == if begin <= Linear(d) < begin + |es| then es[Linear(d) - begin]
             else EntryAt(mem0, root, d);
    }
  }

  ghost predicate Counting(refs0: Frame -> int, refs: Frame -> int, pages: seq<Frame>) {
    forall p {:trigger refs(p)} :: refs(p) == refs0(p) + multiset(pages)[p]
  }

  lemma MappingsAppend(pages: seq<Frame>, page: Frame, flags: int)
    ensures Mappings(pages + [page], flags) == Mappings(pages, flags) + [Entry(true, false, page, flags)]
  {
  }

  /** Page v is the first of the slot that a walk finds around it. */
  ghost predicate Heads(mem: Memory, root: Frame, v: int)
    requires Tables(mem) && 0 <= v < PAGES
  {
    LinearDigits(v);
    var d := DigitsOf(v);
    forall l :: 0 < l <= TOP_LEVEL && Open(mem, root, d, l) && !Open(mem, root, d, l - 1) ==> v % Span(l) == 0
  }

  /** Every page of the range has a table of level 0; an empty range begins at a slot. */
  ghost predicate Clear(mem: Memory, root: Frame, begin: int, count: int)
    requires Tables(mem) && Fits(begin, count)
  {
    if count == 0 then Heads(mem, root, begin) else Populated(mem, root, begin, count)
  }

  /** Indices that are zero below a level belong to the first page of a slot of that level. */
  lemma LowZeros(d: seq<int>, l: int)
    requires Digits(d) && 0 <= l <= TOP_LEVEL && forall i :: 0 <= i < l ==> d[i] == 0
    ensures Linear(d) % Span(l) == 0
  {
    DigitsLinear(d);
  }

  lemma NotHead(a: seq<int>, v: int, l: int)
    requires Digits(a) && 0 < l <= TOP_LEVEL && (forall i :: 0 <= i < l ==> a[i] == 0) &&
             Linear(a) < v < Linear(a) + Span(l)
    ensures v % Span(l) != 0
  {
    LowZeros(a, l);
  }

  /** The end of the range neither crosses into the other half nor wraps around. */
  predicate Fits(begin: int, count: int) {
    0 <= count && ((0 <= begin && begin + count <= HALF) || (HALF <= begin && begin + count < PAGES))
  }

  /** Pages of one slot have the same indices from the level of the slot up. */
  lemma SameSlot(a: seq<int>, b: seq<int>, level: int)
    requires Digits(a) && Digits(b) && 0 <= level <= TOP_LEVEL
    requires forall i :: 0 <= i < level ==> a[i] == 0
    requires Linear(a) <= Linear(b) < Linear(a) + Span(level)
    ensures forall i :: level <= i <= TOP_LEVEL ==> a[i] == b[i]
  {
    assert b[3] == a[3];
    if level <= 2 { assert b[2] == a[2]; }
    if level <= 1 { assert b[1] == a[1]; }
  }
}
