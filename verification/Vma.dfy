/**
 The VMA tree of an address space (mm.c): a red-black tree of disjoint areas that must agree
 with a plain map from address to permission.
 */
module Vma {
  import opened Common
  import opened RbTree

  /** The fields of struct vma that the tree code reads; `perm` is copied on a split. */
  datatype Area = Area(begin: int, end: int, perm: int) {
    predicate Has(a: int) {
      begin <= a < end
    }

    predicate Overlaps(b: int, e: int) {
      b < end && begin < e
    }
  }

  /** What __mmap returns; `Stuck` when an assertion that fails loops forever. */
  datatype Status = Ok | Busy | NoMemory | Stuck

  const PAGE_SIZE := 4096

  /** ALIGN_DOWN_CONST for pages: the last page that begins at the address or before it. */
  function AlignDown(x: nat): (r: nat)
    ensures r % 4096 == 0 && r <= x < r + 4096
  {
    x - x % PAGE_SIZE
  }

  /** ALIGN_CONST for pages: the first page that begins at the address or after it. */
  function AlignUp(x: nat): (r: nat)
    ensures r % 4096 == 0 && x <= r < x + 4096
  {
    AlignDown(x + PAGE_SIZE - 1)
  }

  /** No two areas share an address and none is empty. */
  ghost predicate Apart(area: map<Node, Area>) {
    && (forall n :: n in area ==> area[n].begin < area[n].end)
    && (forall m, n :: m in area && n in area && m != n ==>
        area[m].end <= area[n].begin || area[n].end <= area[m].begin)
  }

  /** The meaning of a set of areas: the permission of an address, if it is mapped at all. */
  ghost function PermAt(area: map<Node, Area>, a: int): Option<int> {
    if n :| n in area && area[n].Has(a) then Some(area[n].perm) else None
  }

  lemma PermUnique(area: map<Node, Area>, n: Node, a: int)
    requires Apart(area) && n in area && area[n].Has(a)
    ensures PermAt(area, a) == Some(area[n].perm)
  {
  }

  /** The effect of adding an area that overlaps nothing. */
  lemma AddedPerm(area: map<Node, Area>, n: Node, x: Area)
    requires Apart(area) && n !in area && x.begin < x.end && forall m :: m in area ==> !area[m].Overlaps(x.begin, x.end)
    ensures Apart(area[n := x])
    ensures forall a :: PermAt(area[n := x], a) == if x.Has(a) then Some(x.perm) else PermAt(area, a)
  {
    var area' := area[n := x];
    forall a ensures PermAt(area', a) == if x.Has(a) then Some(x.perm) else PermAt(area, a) {
      if x.Has(a) {
        PermUnique(area', n, a);
      } else if m :| m in area && area[m].Has(a) {
        assert area'[m].Has(a);
        PermUnique(area', m, a);
        PermUnique(area, m, a);
      }
    }
  }

  /** `area'` is `area` after the part of the area `n` inside the range is gone; `h` may hold the part above it. */
  ghost predicate CutOut(area: map<Node, Area>, area': map<Node, Area>, n: Node, h: Node, b: int, e: int) {
    && n in area && (h == n || h !in area)
    && (forall m :: m in area && m != n ==> m in area' && area'[m] == area[m])
    && (forall m :: m in area' && m != n && m != h ==> m in area)
    && (n in area' ==> area'[n].perm == area[n].perm && area'[n].begin < area'[n].end)
    && (h in area' ==> area'[h].perm == area[n].perm && area'[h].begin < area'[h].end)
    && (n in area' && h in area' && n != h ==> area'[n].end <= area'[h].begin)
    && (forall a :: (n in area' && area'[n].Has(a)) || (h in area' && area'[h].Has(a)) <==>
        area[n].Has(a) && !(b <= a < e))
  }

  lemma CutOutPerm(area: map<Node, Area>, area': map<Node, Area>, n: Node, h: Node, b: int, e: int)
    requires Apart(area) && CutOut(area, area', n, h, b, e)
    ensures forall a :: PermAt(area', a) == if area[n].Has(a) && b <= a < e then None else PermAt(area, a)
  {
    forall a ensures PermAt(area', a) == if area[n].Has(a) && b <= a < e then None else PermAt(area, a) {
      if area[n].Has(a) {
        PermUnique(area, n, a);
      } else if m :| m in area && area[m].Has(a) {
        assert area'[m].Has(a);
      }
    }
  }

  /** Erasing or trimming an area that overlaps the range. */
  lemma CutWays(area: map<Node, Area>, n: Node, b: int, e: int)
    requires n in area && area[n].begin < area[n].end && area[n].Overlaps(b, e) && b < e
    ensures b <= area[n].begin && area[n].end <= e ==> CutOut(area, area - {n}, n, n, b, e)
    ensures b <= area[n].begin && e < area[n].end ==> CutOut(area, area[n := area[n].(begin := e)], n, n, b, e)
    ensures area[n].begin < b && area[n].end <= e ==> CutOut(area, area[n := area[n].(end := b)], n, n, b, e)
  {
  }

  /** Splitting an area that sticks out on both sides. */
  lemma CutSplit(area: map<Node, Area>, n: Node, h: Node, b: int, e: int)
    requires n in area && h !in area && area[n].begin < b < e < area[n].end
    ensures CutOut(area, area[n := area[n].(end := b)][h := area[n].(begin := e)], n, h, b, e)
  {
  }

  /** The addresses of the range that are mapped. */
  ghost function Covered(area: map<Node, Area>, b: int, e: int): set<int> {
    set a | b <= a < e && PermAt(area, a).Some?
  }

  /** Some of the range is unmapped and nothing outside it is touched. */
  ghost predicate Progress(area: map<Node, Area>, area': map<Node, Area>, b: int, e: int) {
    && Covered(area', b, e) < Covered(area, b, e)
    && forall a :: !(b <= a < e) ==> PermAt(area', a) == PermAt(area, a)
  }

  lemma CutOutProgress(area: map<Node, Area>, area': map<Node, Area>, n: Node, h: Node, b: int, e: int)
    requires Apart(area) && CutOut(area, area', n, h, b, e) && area[n].Overlaps(b, e) && b < e
    ensures Progress(area, area', b, e)
  {
    CutOutPerm(area, area', n, h, b, e);
    var a := if area[n].begin < b then b else area[n].begin;
    PermUnique(area, n, a);
    assert a in Covered(area, b, e) && a !in Covered(area', b, e);
  }

  /** A range is free exactly when no area overlaps it. */
  lemma FreeRange(area: map<Node, Area>, b: int, e: int)
    requires Apart(area) && b < e
    ensures (forall n :: n in area ==> !area[n].Overlaps(b, e)) <==> Covered(area, b, e) == {}
  {
    if n :| n in area && area[n].Overlaps(b, e) {
      var a := if area[n].begin < b then b else area[n].begin;
      PermUnique(area, n, a);
      assert a in Covered(area, b, e);
    }
  }

  ghost predicate Begins(area: map<Node, Area>, x: int, e: int) {
    x == e || exists m {:trigger area[m]} :: m in area && area[m].begin == x
  }

  ghost predicate Ends(area: map<Node, Area>, x: int, b: int) {
    x == b || exists m {:trigger area[m]} :: m in area && area[m].end == x
  }

  /** Areas begin where one began before or at `e`, and end where one ended before or at `b`. */
  ghost predicate Bounded(area: map<Node, Area>, area': map<Node, Area>, b: int, e: int) {
    forall n {:trigger area'[n]} :: n in area' ==> Begins(area, area'[n].begin, e) && Ends(area, area'[n].end, b)
  }

  lemma BoundedTwice(area0: map<Node, Area>, area1: map<Node, Area>, area2: map<Node, Area>, b: int, e: int)
    requires Bounded(area0, area1, b, e) && Bounded(area1, area2, b, e)
    ensures Bounded(area0, area2, b, e)
  {
    forall n | n in area2 ensures Begins(area0, area2[n].begin, e) && Ends(area0, area2[n].end, b) {
      if m :| m in area1 && area1[m].begin == area2[n].begin { assert Begins(area0, area1[m].begin, e); }
      if m :| m in area1 && area1[m].end == area2[n].end { assert Ends(area0, area1[m].end, b); }
    }
  }

  lemma BoundedCut(area: map<Node, Area>, area': map<Node, Area>, n: Node, h: Node, b: int, e: int)
    requires n in area
    requires forall m {:trigger area'[m]} :: m in area' && m != n && m != h ==> m in area && area'[m] == area[m]
    requires forall m {:trigger area'[m]} :: m in area' && (m == n || m == h) ==>
               (area'[m].begin == area[n].begin || area'[m].begin == e) &&
                   (area'[m].end == area[n].end || area'[m].end == b)
    ensures Bounded(area, area', b, e)
  {
    forall m | m in area' ensures Begins(area, area'[m].begin, e) && Ends(area, area'[m].end, b) {
      if m != n && m != h { assert area[m].begin == area'[m].begin; } else { assert area[n].begin == area[n].begin; }
    }
  }

  /** `vma` overlaps the range, or nothing does. */
  ghost predicate Found(area: map<Node, Area>, vma: Node?, b: int, e: int) {
    if vma != null then vma in area && area[vma].Overlaps(b, e) else forall n :: n in area ==> !area[n].Overlaps(b, e)
  }

  /** An area that is just the range has not been touched yet, or is all that is gone. */
  ghost predicate Only(before: map<Node, Area>, area: map<Node, Area>, b: int, e: int) {
    forall n {:trigger before[n]} :: n in before && before[n].begin == b && before[n].end == e ==>
      area == before || area == before - {n}
  }

  /** Where the loop of __munmap stands: `vma` is the next area to clear, if there is one. */
  ghost predicate Cleared(before: map<Node, Area>, area: map<Node, Area>, vma: Node?, b: int, e: int) {
    forall look {:trigger Inside(ChangePart, look)} :: Inside(ChangePart, look) ==>
      && (forall a :: !(b <= a < e) ==> PermAt(area, a) == PermAt(before, a))
      && Bounded(before, area, b, e) && Found(area, vma, b, e) && Only(before, area, b, e)
  }

  lemma ClearedStart(area: map<Node, Area>, vma: Node?, b: int, e: int)
    requires Found(area, vma, b, e)
    ensures Cleared(area, area, vma, b, e)
  {
    forall n | n in area ensures Begins(area, area[n].begin, e) && Ends(area, area[n].end, b) {
    }
  }

  lemma ClearedFound(before: map<Node, Area>, area: map<Node, Area>, vma: Node?, b: int, e: int)
    requires Cleared(before, area, vma, b, e)
    ensures Found(area, vma, b, e)
  {
    assert Inside(ChangePart, true);
  }

  lemma ClearedStep(before: map<Node, Area>, mid: map<Node, Area>, area: map<Node, Area>, vma: Node, next: Node?,
                    b: int, e: int)
    requires Apart(before) && Cleared(before, mid, vma, b, e) && b < e
    requires Progress(mid, area, b, e) && Bounded(mid, area, b, e) && vma in mid && Found(area, next, b, e)
    requires b <= mid[vma].begin && mid[vma].end <= e ==> area == mid - {vma}
    ensures Cleared(before, area, next, b, e)
  {
    assert Inside(ChangePart, true);
    BoundedTwice(before, mid, area, b, e);
    OnlyStep(before, mid, area, vma, b, e);
  }

  lemma OnlyStep(before: map<Node, Area>, mid: map<Node, Area>, area: map<Node, Area>, vma: Node, b: int, e: int)
    requires Apart(before) && Only(before, mid, b, e) && vma in mid && mid[vma].Overlaps(b, e) && b < e
    requires b <= mid[vma].begin && mid[vma].end <= e ==> area == mid - {vma}
    ensures Only(before, area, b, e)
  {
    forall n | n in before && before[n].begin == b && before[n].end == e
        ensures area == before || area == before - {n} {
      assert vma == n;
    }
  }

  lemma ClearedEnd(before: map<Node, Area>, area: map<Node, Area>, b: int, e: int)
    requires Cleared(before, area, null, b, e) && Apart(area) && b < e
    ensures forall a :: PermAt(area, a) == if b <= a < e then None else PermAt(before, a)
    ensures Bounded(before, area, b, e)
    ensures forall n {:trigger before[n]} :: n in before && before[n].begin == b && before[n].end == e ==>
            area == before - {n}
  {
    assert Inside(ChangePart, true);
    FreeRange(area, b, e);
    assert forall a :: b <= a < e ==> a !in Covered(area, b, e);
    forall n | n in before && before[n].begin == b && before[n].end == e ensures area == before - {n} {
      assert area == before ==> area[n].Overlaps(b, e);
    }
  }

  class Mm {
    const tree: Tree
    var area: map<Node, Area>

    constructor ()
      ensures Valid() && area == map[] && fresh(tree)
    {
      tree := new Tree();
      area := map[];
    }

    ghost predicate PairSorted(m: Node, n: Node)
      reads this, m`pos, n`pos
    {
      m in area && n in area && m.pos < n.pos ==> area[m].end <= area[n].begin
    }

    ghost predicate Sorted()
      reads this, tree, tree.nodes
    {
      forall m, n {:trigger PairSorted(m, n)} :: m in tree.nodes && n in tree.nodes ==> PairSorted(m, n)
    }

    ghost predicate Valid()
      reads this, tree, tree.nodes
    {
      && tree.Valid() && area.Keys == tree.nodes
      && (forall n :: n in area ==> area[n].begin < area[n].end)
      && Sorted()
    }

    lemma ValidApart()
      requires Valid()
      ensures Apart(area)
    {
      forall m, n | m in area && n in area && m != n
          ensures area[m].end <= area[n].begin || area[n].end <= area[m].begin {
        assert m.pos != n.pos && PairSorted(m, n) && PairSorted(n, m);
      }
    }

    /** Every area before the free link of `p` on side `s` ends by `b`, and every later one starts at `e` or after. */
    ghost predicate Fits(p: Node?, s: Side, b: int, e: int)
      reads this, tree, tree.nodes
    {
      && tree.Valid() && area.Keys == tree.nodes
      && (if p == null then tree.root == null else p in tree.nodes && p.Kid(s) == null)
      && forall m :: m in tree.nodes ==>
           if tree.Before(m, p, s) then area[m].end <= b else e <= area[m].begin
    }

    /** What the descent of a lookup has ruled out so far. */
    ghost predicate Outer(lo: real, hi: real, b: int, e: int)
      reads this, tree, tree.nodes
    {
      forall m :: m in tree.nodes && m in area ==>
        (m.pos <= lo ==> area[m].end <= b) && (hi <= m.pos ==> e <= area[m].begin)
    }

    /** The descent stands at the link of `p` on side `s`, which holds `cur`. */
    ghost predicate AtLink(p: Node?, s: Side, cur: Node?, lo: real, hi: real)
      reads this, tree, tree.nodes
    {
      if p == null then cur == tree.root
      else p in tree.nodes && p.Kid(s) == cur && (if s.Left? then hi == p.pos else lo == p.pos)
    }

    lemma OuterStep(cur: Node, lo: real, hi: real, b: int, e: int)
      requires Valid() && cur in tree.nodes && Outer(lo, hi, b, e)
      ensures area[cur].end <= b ==> Outer(cur.pos, hi, b, e)
      ensures e <= area[cur].begin ==> Outer(lo, cur.pos, b, e)
    {
      forall m | m in tree.nodes
        ensures m.pos <= cur.pos ==> area[m].end <= area[cur].end
        ensures cur.pos <= m.pos ==> area[cur].begin <= area[m].begin
      {
        assert m.pos == cur.pos ==> m == cur;
        assert PairSorted(m, cur) && PairSorted(cur, m);
      }
    }

    /** The descent has come to `cur`: what the range could overlap lies below it. */
    ghost predicate Descent(p: Node?, s: Side, cur: Node?, lo: real, hi: real, b: int, e: int)
      reads this, tree, tree.nodes
    {
      && (cur != null ==> cur in tree.nodes)
      && forall look {:trigger Inside(AreasPart, look)} :: Inside(AreasPart, look) ==>
           tree.Spans(cur, lo, hi) && Outer(lo, hi, b, e) && AtLink(p, s, cur, lo, hi)
    }

    /** The node below `cur` on a side holds less. */
    lemma DescentShrinks(cur: Node)
      requires Valid() && cur in tree.nodes
      ensures cur.left != null ==> cur.left in tree.nodes && tree.Inside(cur.left) < tree.Inside(cur)
      ensures cur.right != null ==> cur.right in tree.nodes && tree.Inside(cur.right) < tree.Inside(cur)
    {
      tree.DescendShrinks(cur);
    }

    lemma DescentStep(p: Node?, s: Side, cur: Node, lo: real, hi: real, b: int, e: int)
      requires Valid() && Descent(p, s, cur, lo, hi, b, e)
      ensures area[cur].end <= b ==> Descent(cur, Right, cur.right, cur.pos, hi, b, e)
      ensures e <= area[cur].begin ==> Descent(cur, Left, cur.left, lo, cur.pos, b, e)
    {
      assert Inside(AreasPart, true);
      tree.SpansKids(cur, lo, hi);
      OuterStep(cur, lo, hi, b, e);
      DescentShrinks(cur);
    }

    lemma DescentStarts(b: int, e: int) returns (lo: real, hi: real)
      requires Valid()
      ensures Descent(null, Left, tree.root, lo, hi, b, e)
    {
      lo, hi := tree.SpansRoot();
    }

    lemma DescentEnds(p: Node?, s: Side, lo: real, hi: real, b: int, e: int)
      requires Valid() && Descent(p, s, null, lo, hi, b, e)
      ensures Fits(p, s, b, e) && forall n :: n in area ==> !area[n].Overlaps(b, e)
    {
      assert Inside(AreasPart, true);
    }

    /** __lookup_vma: an area that overlaps the range, or the link where the range belongs. */
    method Lookup(b: int, e: int) returns (vma: Node?, p: Node?, s: Side)
      requires Valid()
      ensures vma != null ==> vma in area && area[vma].Overlaps(b, e)
      ensures vma == null ==> (forall n :: n in area ==> !area[n].Overlaps(b, e)) && Fits(p, s, b, e)
    {
      var cur := tree.root;
      p, s := null, Left;
      ghost var lo, hi := DescentStarts(b, e);
      while cur != null
        invariant Descent(p, s, cur, lo, hi, b, e)
        decreases cur != null, if cur == null then {} else tree.Inside(cur)
      {
        DescentStep(p, s, cur, lo, hi, b, e);
        DescentShrinks(cur);
        if b >= area[cur].end {
          lo := cur.pos;
          p, s, cur := cur, Right, cur.right;
        } else if e <= area[cur].begin {
          hi := cur.pos;
          p, s, cur := cur, Left, cur.left;
        } else {
          return cur, p, s;
        }
      }
      DescentEnds(p, s, lo, hi, b, e);
      vma := null;
    }

    /** rb_link and rb_insert of a new area at the link a lookup found. */
    method LinkVma(node: Node, x: Area, p: Node?, s: Side)
      requires Valid() && Fits(p, s, x.begin, x.end) && x.begin < x.end && node !in tree.nodes
      modifies this`area, tree, tree.nodes, node
      ensures Valid() && area == old(area)[node := x] && tree.nodes == old(tree.nodes) + {node}
    {
      tree.Add(node, p, s);
      area := area[node := x];
      forall m, n | m in tree.nodes && n in tree.nodes ensures PairSorted(m, n) {
        assert m != node && n != node ==> old(PairSorted(m, n));
      }
    }

    /** insert_vma: the range is known to be free. */
    method InsertVma(node: Node, x: Area)
      requires Valid() && x.begin < x.end && node !in tree.nodes
      requires forall m :: m in area ==> !area[m].Overlaps(x.begin, x.end)
      modifies this`area, tree, tree.nodes, node
      ensures Valid() && area == old(area)[node := x] && tree.nodes == old(tree.nodes) + {node}
    {
      var vma, p, s := Lookup(x.begin, x.end);
      LinkVma(node, x, p, s);
    }

    /** rb_erase of an area. */
    method EraseVma(n: Node)
      requires Valid() && n in area
      modifies this`area, tree, tree.nodes
      ensures Valid() && area == old(area) - {n} && tree.nodes == old(tree.nodes) - {n}
    {
      tree.Erase(n);
      area := area - {n};
      forall k, m | k in tree.nodes && m in tree.nodes ensures PairSorted(k, m) { assert old(PairSorted(k, m)); }
    }

    /** An area changes its bounds in place; it may only shrink. */
    method Shrink(n: Node, x: Area)
      requires Valid() && n in area && area[n].begin <= x.begin < x.end <= area[n].end
      modifies this`area
      ensures Valid() && area == old(area)[n := x]
    {
      area := area[n := x];
      forall k, m | k in tree.nodes && m in tree.nodes ensures PairSorted(k, m) { assert old(PairSorted(k, m)); }
    }

    /** An area that sticks out on both sides of the range is split in two. */
    method SplitVma(n: Node, b: int, e: int) returns (high: Node)
      requires Valid() && n in area && area[n].begin < b < e < area[n].end
      modifies this`area, tree, tree.nodes
      ensures fresh(high) && Valid() && tree.nodes == old(tree.nodes) + {high}
      ensures area == old(area)[n := old(area)[n].(end := b)][high := old(area)[n].(begin := e)]
    {
      ValidApart();
      high := new Node();
      var x := area[n].(begin := e);
      Shrink(n, area[n].(end := b));
      InsertVma(high, x);
    }

    /** One round of the loop in __munmap: erase, trim or split the overlapping area `n`. */
    method Clear(n: Node, b: int, e: int)
      requires Valid() && b < e && n in area && area[n].Overlaps(b, e)
      modifies this`area, tree, tree.nodes
      ensures Valid() && fresh(tree.nodes - old(tree.nodes))
      ensures Progress(old(area), area, b, e) && Bounded(old(area), area, b, e)
      ensures b <= old(area)[n].begin && old(area)[n].end <= e ==> area == old(area) - {n}
    {
      ValidApart();
      CutWays(area, n, b, e);
      ghost var h := n;
      if area[n].begin >= b {
        if area[n].end <= e {
          EraseVma(n);
        } else {
          Shrink(n, area[n].(begin := e));
        }
      } else {
        if area[n].end <= e {
          Shrink(n, area[n].(end := b));
        } else {
          h := SplitVma(n, b, e);
          CutSplit(old(area), n, h, b, e);
        }
      }
      CutOutProgress(old(area), area, n, h, b, e);
      BoundedCut(old(area), area, n, h, b, e);
    }

    /** __munmap: exactly the range is unmapped and every other address keeps its permission. */
    method Munmap(b: int, e: int)
      requires Valid() && b < e
      modifies this`area, tree, tree.nodes
      ensures Valid() && fresh(tree.nodes - old(tree.nodes))
      ensures forall a :: PermAt(area, a) == if b <= a < e then None else PermAt(old(area), a)
      ensures Bounded(old(area), area, b, e)
      ensures forall n {:trigger old(area)[n]} ::
                n in old(area) && old(area)[n].begin == b && old(area)[n].end == e ==> area == old(area) - {n}
    {
      ghost var before := area;
      ValidApart();
      var vma := FindVma(b, e);
      ClearedStart(before, vma, b, e);
      while vma != null
        invariant Valid() && fresh(tree.nodes - old(tree.nodes)) && Cleared(before, area, vma, b, e)
        decreases Covered(area, b, e), vma != null
      {
        vma := ClearNext(vma, b, e, before);
      }
      ValidApart();
      ClearedEnd(before, area, b, e);
    }

    method FindVma(b: int, e: int) returns (vma: Node?)
      requires Valid()
      ensures Found(area, vma, b, e)
    {
      var p, s;
      vma, p, s := Lookup(b, e);
    }

    method ClearNext(vma: Node, b: int, e: int, ghost before: map<Node, Area>) returns (next: Node?)
      requires Valid() && b < e && Apart(before) && Cleared(before, area, vma, b, e)
      modifies this`area, tree, tree.nodes
      ensures Valid() && fresh(tree.nodes - old(tree.nodes)) && Cleared(before, area, next, b, e)
      ensures Covered(area, b, e) < Covered(old(area), b, e)
    {
      ClearedFound(before, area, vma, b, e);
      Clear(vma, b, e);
      next := FindVma(b, e);
      ClearedStep(before, old(area), area, vma, next, b, e);
    }

    /** lookup_vma: the area around the first address of the page of an address, if that is mapped. */
    method LookupVma(addr: nat) returns (vma: Node?)
      requires Valid()
      ensures vma != null ==> vma in area && area[vma].Has(addr - addr % 4096)
      ensures vma != null ==> PermAt(area, addr - addr % 4096) == Some(area[vma].perm)
      ensures vma == null <==> PermAt(area, addr - addr % 4096) == None
    {
      var a := AlignDown(addr);
      var p, s;
      vma, p, s := Lookup(a, a + 1);
      ValidApart();
      if vma != null {
        PermUnique(area, vma, a);
      }
    }

    /** A new area at the link a lookup found. */
    method LinkNew(x: Area, p: Node?, s: Side) returns (node: Node)
      requires Valid() && Fits(p, s, x.begin, x.end) && x.begin < x.end
      modifies this`area, tree, tree.nodes
      ensures Valid() && fresh(tree.nodes - old(tree.nodes)) && node !in old(area) && area == old(area)[node := x]
    {
      node := new Node();
      LinkVma(node, x, p, s);
    }

    /** The end of __mmap: a free range becomes an area. */
    method MapFree(b: int, e: int, perm: int, p: Node?, s: Side) returns (node: Node)
      requires Valid() && Fits(p, s, b, e) && b < e && forall n :: n in area ==> !area[n].Overlaps(b, e)
      modifies this`area, tree, tree.nodes
      ensures Valid() && fresh(tree.nodes - old(tree.nodes)) && area == old(area)[node := Area(b, e, perm)]
      ensures forall a :: PermAt(area, a) == if b <= a < e then Some(perm) else PermAt(old(area), a)
    {
      ValidApart();
      node := LinkNew(Area(b, e, perm), p, s);
      AddedPerm(old(area), node, Area(b, e, perm));
    }

    // ----- going through the areas in order -----

    /** No area begins before this one. */
    ghost predicate IsFirst(n: Node?)
      reads this
    {
      if n == null then area == map[]
      else n in area && forall m {:trigger area[m]} :: m in area ==> area[n].begin <= area[m].begin
    }

    /** `r` is the first of the areas after `n`. */
    ghost predicate Follows(n: Node, r: Node?)
      reads this
    {
      n in area
      && (if r == null then forall m {:trigger area[m]} :: m in area ==> area[m].begin <= area[n].begin
          else r in area && area[n].begin < area[r].begin
               && forall m {:trigger area[m]} :: m in area && area[n].begin < area[m].begin ==>
                   area[r].begin <= area[m].begin)
    }

    /** Areas are in the order of their nodes. */
    lemma InOrder(m: Node, n: Node)
      requires Valid() && m in area && n in area
      ensures m.pos < n.pos <==> area[m].begin < area[n].begin
    {
      assert PairSorted(m, n) && PairSorted(n, m);
      assert m.pos == n.pos ==> m == n;
    }

    /** rb_leftmost of the whole tree. */
    method FirstVma() returns (n: Node?)
      requires Valid()
      ensures IsFirst(n)
    {
      if tree.root == null { return null; }
      ghost var lo, hi := tree.SpansRoot();
      n := tree.Leftmost(tree.root);
      forall m | m in area ensures area[n].begin <= area[m].begin {
        InOrder(m, n);
        assert tree.Within(tree.root, m);
      }
    }

    /** rb_next of an area. */
    method NextVma(n: Node) returns (r: Node?)
      requires Valid() && n in area
      ensures Follows(n, r)
    {
      r := tree.Next(n);
      forall m | m in area ensures m.pos < n.pos <==> area[m].begin < area[n].begin { InOrder(m, n); }
      forall m | m in area ensures n.pos < m.pos <==> area[n].begin < area[m].begin { InOrder(n, m); }
      if r != null {
        forall m | m in area && area[n].begin < area[m].begin ensures area[r].begin <= area[m].begin { InOrder(m, r); }
      }
    }
  }
}
