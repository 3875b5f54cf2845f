/**
 The buddy allocator of a memory node (memory.c).

 The free lists are shown to be, as sets, a function of the set of free pages alone: list k holds
 the heads of the aligned blocks of 2^k free pages that lie in no larger free block.
 */
module Buddy {

  import opened Common

  /** BUDDY_ORDERS - 1. */
  const TOP := 11

  // ----- blocks -----

  /** Bit k of p. */
  predicate Bit(p: nat, k: nat) {
    if k == 0 then p % 2 == 1 else Bit(p / 2, k - 1)
  }

  /** The lowest k bits of p are zero. */
  predicate Aligned(p: nat, k: nat) {
    k == 0 || (p % 2 == 0 && Aligned(p / 2, k - 1))
  }

  /** buddy_pfn: p with bit k flipped. */
  function BuddyOf(p: nat, k: nat): (b: nat) {
    if k == 0 then (if p % 2 == 0 then p + 1 else p - 1) else 2 * BuddyOf(p / 2, k - 1) + p % 2
  }

  /** The blocks of an order begin at the multiples of their size. */
  lemma {:induction false} AlignedExact(p: nat, k: nat)
    ensures Aligned(p, k) <==> p % Pow2(k) == 0
  {
    if k > 0 {
      AlignedExact(p / 2, k - 1);
      DivideTwice(p, 2, Pow2(k - 1));
    }
  }

  /** buddy_pfn adds the bit of the order when it is not there, and else takes it away. */
  lemma {:induction false} BuddyExact(p: nat, k: nat)
    ensures BuddyOf(p, k) == if p / Pow2(k) % 2 == 0 then p + Pow2(k) else p - Pow2(k)
  {
    if k > 0 {
      BuddyExact(p / 2, k - 1);
      DivideTwice(p, 2, Pow2(k - 1));
    }
  }

  ghost predicate Within(i: int, p: nat, k: nat) {
    p <= i < p + Pow2(k)
  }

  ghost function Span(p: nat, k: nat): set<nat> {
    set i: nat {:trigger Within(i, p, k)} | p <= i < p + Pow2(k) && Within(i, p, k)
  }

  /** The head of the block of order k + 1 around the block of order k at p. */
  ghost function Parent(p: nat, k: nat): nat {
    if Bit(p, k) && p >= Pow2(k) then p - Pow2(k) else p
  }

  lemma {:induction false} AlignedGap(x: nat, y: nat, k: nat)
    requires Aligned(x, k) && Aligned(y, k) && x < y
    ensures x + Pow2(k) <= y
  {
    if k > 0 { AlignedGap(x / 2, y / 2, k - 1); }
  }

  lemma {:induction false} AlignedBelow(p: nat, j: nat, k: nat)
    requires k <= j && Aligned(p, j)
    ensures Aligned(p, k)
  {
    if k > 0 { AlignedBelow(p / 2, j - 1, k - 1); }
  }

  lemma {:induction false} AlignedEnd(p: nat, k: nat)
    requires Aligned(p, k)
    ensures Aligned(p + Pow2(k), k)
  {
    if k > 0 { AlignedEnd(p / 2, k - 1); assert (p + Pow2(k)) / 2 == p / 2 + Pow2(k - 1); }
  }

  /** Two aligned blocks are nested or disjoint. */
  lemma Nested(p: nat, k: nat, q: nat, j: nat, i: int)
    requires k <= j && Aligned(p, k) && Aligned(q, j) && Within(i, p, k) && Within(i, q, j)
    ensures q <= p && p + Pow2(k) <= q + Pow2(j)
  {
    AlignedBelow(q, j, k);
    if p < q { AlignedGap(p, q, k); }
    AlignedEnd(q, j);
    AlignedBelow(q + Pow2(j), j, k);
    AlignedGap(p, q + Pow2(j), k);
  }

  /** A block and its buddy are the two halves of the parent. */
  lemma {:induction false} Halves(p: nat, k: nat)
    requires Aligned(p, k)
    ensures BuddyOf(p, k) == if Bit(p, k) then p - Pow2(k) else p + Pow2(k)
    ensures Aligned(BuddyOf(p, k), k) && Bit(BuddyOf(p, k), k) != Bit(p, k) && (Bit(p, k) ==> Pow2(k) <= p)
    ensures Aligned(Parent(p, k), k + 1)
  {
    if k > 0 {
      Halves(p / 2, k - 1);
      assert Bit(p, k) ==> (p - Pow2(k)) / 2 == p / 2 - Pow2(k - 1);
      assert (p + Pow2(k)) / 2 == p / 2 + Pow2(k - 1);
      assert Parent(p, k) / 2 == Parent(p / 2, k - 1);
    }
  }

  // ----- maximal free blocks -----

  ghost predicate AllFree(free: set<nat>, p: nat, k: nat) {
    forall i: nat {:trigger Within(i, p, k)} :: Within(i, p, k) ==> i in free
  }

  /** The block of order k at p is free and is not half of a larger free block. */
  ghost predicate IsMax(free: set<nat>, p: nat, k: nat) {
    && k <= TOP && Aligned(p, k) && p in free && AllFree(free, p, k)
    && (k < TOP ==> !AllFree(free, Parent(p, k), k + 1))
  }

  lemma ParentHalves(p: nat, k: nat)
    requires Aligned(p, k)
    ensures Parent(p, k) == Parent(BuddyOf(p, k), k)
    ensures forall i: nat :: Within(i, Parent(p, k), k + 1) <==> Within(i, p, k) || Within(i, BuddyOf(p, k), k)
    ensures forall i: nat :: !(Within(i, p, k) && Within(i, BuddyOf(p, k), k))
  {
    Halves(p, k);
  }

  /** A free block that meets a maximal one lies inside it. */
  lemma InsideMax(free: set<nat>, p: nat, k: nat, q: nat, j: nat, i: nat)
    requires IsMax(free, p, k) && Aligned(q, j) && j <= TOP && AllFree(free, q, j) && Within(i, p, k) && Within(i, q, j)
    ensures j <= k && p <= q && q + Pow2(j) <= p + Pow2(k)
  {
    if j <= k {
      Nested(q, j, p, k, i);
    } else {
      Halves(p, k);
      ParentHalves(p, k);
      Nested(Parent(p, k), k + 1, q, j, i);
      forall x: nat | Within(x, Parent(p, k), k + 1) ensures x in free { assert Within(x, q, j); }
      assert false;
    }
  }

  lemma MaxDisjoint(free: set<nat>, p: nat, k: nat, q: nat, j: nat, i: nat)
    requires IsMax(free, p, k) && IsMax(free, q, j) && Within(i, p, k) && Within(i, q, j)
    ensures p == q && k == j
  {
    InsideMax(free, p, k, q, j, i);
    InsideMax(free, q, j, p, k, i);
  }

  /** Taking a maximal block out of the free pages changes no other maximal block. */
  lemma RemoveMax(free: set<nat>, p: nat, k: nat, q: nat, j: nat)
    requires IsMax(free, p, k)
    ensures IsMax(free - Span(p, k), q, j) <==> IsMax(free, q, j) && !(q == p && j == k)
  {
    assert Within(p, p, k) && Within(q, q, j);
    if IsMax(free, q, j) && !(q == p && j == k) { RemoveKeeps(free, p, k, q, j); }
    if IsMax(free - Span(p, k), q, j) { RemoveMakesNone(free, p, k, q, j); }
  }

  lemma RemoveKeeps(free: set<nat>, p: nat, k: nat, q: nat, j: nat)
    requires IsMax(free, p, k) && IsMax(free, q, j) && !(q == p && j == k)
    ensures IsMax(free - Span(p, k), q, j)
  {
    var rest := free - Span(p, k);
    forall i: nat | Within(i, q, j) ensures i in rest {
      if Within(i, p, k) { MaxDisjoint(free, p, k, q, j, i); }
    }
    if j < TOP {
      var x: nat :| Within(x, Parent(q, j), j + 1) && x !in free;
      assert x !in rest;
    }
  }

  lemma RemoveMakesNone(free: set<nat>, p: nat, k: nat, q: nat, j: nat)
    requires IsMax(free, p, k) && IsMax(free - Span(p, k), q, j)
    ensures IsMax(free, q, j)
  {
    var rest := free - Span(p, k);
    assert Within(q, q, j);
    assert AllFree(free, q, j);
    if j < TOP && AllFree(free, Parent(q, j), j + 1) {
      var x: nat :| Within(x, Parent(q, j), j + 1) && x !in rest;
      Halves(q, j);
      ParentHalves(q, j);
      assert Within(q, Parent(q, j), j + 1) && !Within(q, p, k);
      InsideMax(free, p, k, Parent(q, j), j + 1, x);
      assert false;
    }
  }

  /** Adding a block whose buddy is not entirely free adds exactly one maximal block. */
  lemma AddMax(free: set<nat>, p: nat, k: nat)
    requires k <= TOP && Aligned(p, k) && Span(p, k) !! free
    requires k < TOP ==> !AllFree(free, BuddyOf(p, k), k)
    ensures forall q: nat, j: nat :: IsMax(free + Span(p, k), q, j) <==> IsMax(free, q, j) || (q == p && j == k)
  {
    var more := free + Span(p, k);
    assert Within(p, p, k) && p in more;
    assert IsMax(more, p, k) by {
      ParentHalves(p, k);
      if k < TOP {
        var x: nat :| Within(x, BuddyOf(p, k), k) && x !in free;
        assert Within(x, Parent(p, k), k + 1) && x !in more;
      }
    }
    assert more - Span(p, k) == free;
    forall q: nat, j: nat ensures IsMax(more, q, j) <==> IsMax(free, q, j) || (q == p && j == k) {
      RemoveMax(more, p, k, q, j);
    }
  }

  /** Every free aligned block lies in a maximal one. */
  lemma {:induction false} MaxAround(free: set<nat>, p: nat, k: nat) returns (q: nat, j: nat)
    requires k <= TOP && Aligned(p, k) && AllFree(free, p, k)
    ensures IsMax(free, q, j) && k <= j && q <= p && p + Pow2(k) <= q + Pow2(j)
    decreases TOP - k
  {
    assert Within(p, p, k);
    if IsMax(free, p, k) {
      return p, k;
    }
    Halves(p, k);
    q, j := MaxAround(free, Parent(p, k), k + 1);
  }

  // ----- lists -----

  /** list_del. */
  function Delete(s: seq<nat>, x: nat): seq<nat> {
    if s == [] then [] else if s[0] == x then s[1..] else [s[0]] + Delete(s[1..], x)
  }

  lemma {:induction false} DeleteMembers(s: seq<nat>, x: nat)
    requires NoDup(s)
    ensures NoDup(Delete(s, x)) && forall y :: y in Delete(s, x) <==> y in s && y != x
  {
    if s != [] {
      DeleteMembers(s[1..], x);
      assert forall y :: y in s <==> y == s[0] || y in s[1..];
      var t := Delete(s[1..], x);
      forall i, j | 0 <= i < j < |[s[0]] + t| ensures ([s[0]] + t)[i] != ([s[0]] + t)[j] {
        assert ([s[0]] + t)[j] in t;
      }
    }
  }

  /** struct page: the busy flag and the order field. */
  datatype Page = Page(busy: bool, order: int)

  /** Page i belongs to an allocated block. */
  ghost predicate Owned(held: map<nat, nat>, i: nat) {
    exists h :: h in held && Within(i, h, held[h])
  }

  lemma OwnedPlus(held: map<nat, nat>, p: nat, k: nat)
    requires p !in held
    ensures forall i: nat :: Owned(held[p := k], i) <==> Owned(held, i) || Within(i, p, k)
  {
    var more := held[p := k];
    forall i: nat ensures Owned(more, i) <==> Owned(held, i) || Within(i, p, k) {
      if h :| h in held && Within(i, h, held[h]) { assert h in more && more[h] == held[h]; }
      if Within(i, p, k) { assert p in more && more[p] == k; }
    }
  }

  class MemoryNode {
    const mmap: array<Page>
    const freeList: array<seq<nat>>
    /** The pages on no allocated or reserved block. */
    ghost var free: set<nat>
    /** The allocated blocks: head and order. */
    ghost var held: map<nat, nat>

    /** Free list k holds, once each, the maximal free blocks of order k. */
    ghost predicate Listed()
      reads this, freeList
    {
      && freeList.Length == TOP + 1
      && (forall k :: 0 <= k <= TOP ==> NoDup(freeList[k]))
      && (forall p: nat, k: nat {:trigger IsMax(free, p, k)} :: k <= TOP ==> (p in freeList[k] <==> IsMax(free, p, k)))
    }

    /** The flags of pages that are heads of something; nothing is said of any other page. */
    ghost predicate Marked(out: set<nat>)
      reads this, mmap
    {
      && (forall p: nat, k: nat {:trigger IsMax(free, p, k)} :: IsMax(free, p, k) ==>
          p < mmap.Length && mmap[p] == Page(false, k))
      && (forall p: nat :: p < mmap.Length && p !in free && p !in out && (p in held || !Owned(held, p)) ==>
          mmap[p].busy)
    }

    /** The free pages, the allocated blocks and the pages in transit do not meet. */
    ghost predicate Partitioned(out: set<nat>)
      reads this
    {
      && (forall i :: i in free ==> i < mmap.Length)
      && (forall i :: i in out ==> i < mmap.Length && i !in free && !Owned(held, i))
      && (forall h :: h in held ==> held[h] <= TOP && Aligned(h, held[h]))
      && (forall h, i: nat {:trigger Within(i, h, held[h])} :: h in held && Within(i, h, held[h]) ==>
          i < mmap.Length && i !in free)
      && (forall g, h, i: nat {:trigger Within(i, g, held[g]), Within(i, h, held[h])} ::
            g in held && h in held && Within(i, g, held[g]) && Within(i, h, held[h]) ==> g == h)
    }

    ghost predicate Inv(out: set<nat>)
      reads this, mmap, freeList
    {
      Listed() && Marked(out) && Partitioned(out)
    }

    ghost predicate Valid()
      reads this, mmap, freeList
    {
      Inv({})
    }

    /** __memory_node_add: every page starts busy and every list empty. */
    constructor (pages: nat)
      ensures Valid() && free == {} && held == map[] && mmap.Length == pages && fresh(mmap) && fresh(freeList)
    {
      mmap := new Page[pages](_ => Page(true, 0));
      freeList := new seq<nat>[TOP + 1](_ => []);
      free, held := {}, map[];
    }

    /** The owner of a page may overwrite its order field (it shares storage with a counter and a pointer). */
    method Scribble(p: nat, v: int)
      requires Valid() && p < mmap.Length && p !in free
      modifies mmap
      ensures Valid() && mmap[p].busy == old(mmap[p].busy)
    {
      mmap[p] := mmap[p].(order := v);
      assert forall k: nat :: IsMax(free, p, k) ==> Within(p, p, k);
    }

    /** Detach a listed block: its pages are in transit. */
    method Unlist(p: nat, k: nat, ghost out: set<nat>)
      requires Inv(out) && k <= TOP && p in freeList[k] && Span(p, k) !! out
      modifies this`free, freeList
      ensures Inv(out + Span(p, k)) && free == old(free) - Span(p, k) && old(IsMax(free, p, k))
    {
      assert IsMax(free, p, k);
      DeleteMembers(freeList[k], p);
      forall q: nat, j: nat ensures IsMax(free - Span(p, k), q, j) <==> IsMax(free, q, j) && !(q == p && j == k) {
        RemoveMax(free, p, k, q, j);
      }
      freeList[k] := Delete(freeList[k], p);
      free := free - Span(p, k);
    }

    /** Put a block in transit on its list: order and flag of the head, then list_add. */
    method List(p: nat, k: nat, ghost out: set<nat>)
      requires Inv(out) && k <= TOP && Aligned(p, k) && Span(p, k) <= out
      requires k < TOP ==> !AllFree(free, BuddyOf(p, k), k)
      modifies this`free, freeList, mmap
      ensures Inv(out - Span(p, k)) && free == old(free) + Span(p, k)
      ensures forall i :: 0 <= i < mmap.Length && i != p ==> mmap[i] == old(mmap[i])
    {
      assert Within(p, p, k) && p in Span(p, k);
      AddMax(free, p, k);
      assert p !in freeList[k] by { assert !IsMax(free, p, k); }
      forall q: nat, j: nat | IsMax(free, q, j) ensures q != p { assert Within(q, q, j); }
      forall h, i: nat | h in held && Within(i, h, held[h]) ensures i !in Span(p, k) { assert Owned(held, i); }
      mmap[p] := mmap[p].(order := k);
      mmap[p] := mmap[p].(busy := false);
      freeList[k] := [p] + freeList[k];
      free := free + Span(p, k);
    }

    /** The test of __free_pages_node on the buddy of a block in transit, stale flags or not. */
    lemma BuddyTest(p: nat, k: nat)
      requires Inv(Span(p, k)) && k < TOP && Aligned(p, k) && BuddyOf(p, k) < mmap.Length
      ensures (!mmap[BuddyOf(p, k)].busy && mmap[BuddyOf(p, k)].order == k) <==> BuddyOf(p, k) in freeList[k]
      ensures BuddyOf(p, k) in freeList[k] <==> AllFree(free, BuddyOf(p, k), k)
    {
      var b := BuddyOf(p, k);
      Halves(p, k);
      ParentHalves(p, k);
      assert Within(p, p, k) && Within(b, b, k) && p in Span(p, k) && Within(p, Parent(b, k), k + 1);
      assert IsMax(free, b, k) <==> AllFree(free, b, k);
      if !mmap[b].busy && mmap[b].order == k {
        if b in free {
          var j := HeadOfFree(free, p, k);
        } else {
          assert b !in held && Owned(held, b);
          var h :| h in held && Within(b, h, held[h]);
          AroundBuddy(p, k, h, held[h]);
          assert false;
        }
      }
    }

    /** Pages in transit become an allocated block. */
    ghost method Hold(p: nat, k: nat)
      requires Inv(Span(p, k)) && k <= TOP && Aligned(p, k) && p < mmap.Length && mmap[p].busy
      modifies this`held
      ensures Valid() && held == old(held)[p := k] && p !in old(held)
    {
      assert Within(p, p, k);
      forall h | h in held ensures !Within(h, p, k) {
        assert Within(h, h, held[h]);
        assert Owned(held, h);
        assert Within(h, p, k) ==> h in Span(p, k);
      }
      OwnedPlus(held, p, k);
      var held0 := held;
      held := held[p := k];
      forall h, i: nat | h in held && h != p && Within(i, h, held[h])
        ensures i < mmap.Length && i !in free && !Within(i, p, k)
      {
        assert h in held0 && Within(i, h, held0[h]);
        assert Owned(held0, i);
        assert Within(i, p, k) ==> i in Span(p, k);
      }
      forall i: nat | Within(i, p, k) ensures i < mmap.Length && i !in free { assert i in Span(p, k); }
      forall i: nat | i < mmap.Length && i !in free && (i in held || !Owned(held, i)) ensures mmap[i].busy {
        assert i in Span(p, k) ==> Within(i, p, k);
      }
    }

    /** An allocated block goes into transit. */
    ghost method Release(p: nat)
      requires Valid() && p in held
      modifies this`held
      ensures Inv(Span(p, old(held[p]))) && held == old(held) - {p}
    {
      var held0, k := held, held[p];
      held := held - {p};
      assert held0 == held[p := k];
      OwnedPlus(held, p, k);
      forall i: nat | Within(i, p, k) ensures i < mmap.Length && i !in free && !Owned(held, i) {
        assert Within(i, p, held0[p]);
        forall h | h in held ensures !Within(i, h, held[h]) {
          assert h in held0 && held0[h] == held[h];
        }
      }
    }

    /** One round of the splitting loop: the upper half goes on its list. */
    method GiveUpper(p: nat, k: nat)
      requires Inv(Span(p, k + 1)) && k < TOP && Aligned(p, k + 1)
      modifies this`free, mmap, freeList
      ensures Inv(Span(p, k)) && Aligned(p, k) && p < mmap.Length && mmap[p] == old(mmap[p])
      ensures Span(p, k) <= Span(p, k + 1) && free == old(free) + (Span(p, k + 1) - Span(p, k))
    {
      var b := BuddyOf(p, k);
      UpperHalf(p, k);
      assert Within(p, p, k) && Within(p, p, k + 1) && p in Span(p, k + 1);
      List(b, k, Span(p, k + 1));
    }

    /** The second half of __alloc_pages_node: give back upper halves until the block has the wanted order. */
    method Split(p: nat, top: nat, order: nat)
      requires Inv(Span(p, top)) && order <= top <= TOP && Aligned(p, top)
      modifies this`free, mmap, freeList
      ensures Inv(Span(p, order)) && p < mmap.Length && mmap[p].busy
      ensures Span(p, order) <= Span(p, top) && free == old(free) + (Span(p, top) - Span(p, order))
    {
      assert Within(p, p, top) && p in Span(p, top);
      mmap[p] := mmap[p].(busy := true);
      var co := top;
      while co > order
        invariant order <= co <= top && Aligned(p, co) && Inv(Span(p, co)) && p < mmap.Length && mmap[p].busy
        invariant Span(p, co) <= Span(p, top) && free == old(free) + (Span(p, top) - Span(p, co))
      {
        co := co - 1;
        GiveUpper(p, co);
      }
    }

    /** p is the first block of the first list from `order` on that has any: no larger block is split. */
    ghost predicate Smallest(lists: seq<seq<nat>>, order: nat, p: nat) {
      exists co :: order <= co < |lists| && lists[co] != [] && lists[co][0] == p &&
                   forall j :: order <= j < co ==> lists[j] == []
    }

    /** There is a run of 2^k free pages that starts at a multiple of 2^k. */
    ghost predicate HasRun(k: nat)
      reads this
    {
      exists p: nat :: Aligned(p, k) && AllFree(free, p, k)
    }

    lemma RunListed(k: nat)
      requires Valid() && k <= TOP && HasRun(k)
      ensures exists j :: k <= j <= TOP && freeList[j] != []
    {
      var p: nat :| Aligned(p, k) && AllFree(free, p, k);
      var q, j := MaxAround(free, p, k);
      assert q in freeList[j];
    }

    /** The search of __alloc_pages_node: the first non-empty list from `order` on, or TOP + 1. */
    method FindList(order: nat) returns (co: nat)
      requires Valid()
      ensures order <= co && (order <= TOP ==> co <= TOP + 1)
      ensures co <= TOP ==> freeList[co] != []
      ensures forall j :: order <= j < co && j <= TOP ==> freeList[j] == []
      ensures order <= TOP ==> (co == TOP + 1 <==> !HasRun(order))
    {
      co := order;
      while co < TOP + 1
        invariant order <= co && (order <= TOP ==> co <= TOP + 1)
        invariant forall j :: order <= j < co && j <= TOP ==> freeList[j] == []
      {
        if freeList[co] != [] {
          break;
        }
        co := co + 1;
      }
      if order <= TOP {
        if co == TOP + 1 {
          if HasRun(order) { RunListed(order); }
        } else {
          ListedRun(freeList[co][0], co, order);
        }
      }
    }

    lemma ListedRun(p: nat, k: nat, order: nat)
      requires Valid() && order <= k <= TOP && p in freeList[k]
      ensures Aligned(p, order) && AllFree(free, p, order) && HasRun(order)
    {
      assert IsMax(free, p, k);
      AlignedBelow(p, k, order);
      PowGrows(order, k);
      forall i: nat | Within(i, p, order) ensures i in free { assert Within(i, p, k); }
    }

    /** __alloc_pages_node: null exactly when no aligned run of that many free pages exists. */
    method Alloc(order: nat) returns (r: Option<nat>)
      requires Valid()
      modifies this, mmap, freeList
      ensures Valid()
      ensures order <= TOP ==> (r == None <==> !old(HasRun(order)))
      ensures r == None ==> free == old(free) && held == old(held)
      ensures r.Some? ==>
                && order <= TOP && Aligned(r.value, order) && old(AllFree(free, r.value, order))
                && free == old(free) - Span(r.value, order) && held == old(held)[r.value := order] &&
                    r.value !in old(held)
      ensures r.Some? ==> Smallest(old(freeList[..]), order, r.value)
    {
      var co := FindList(order);
      if co >= TOP + 1 {
        return None;
      }
      var p := freeList[co][0];
      ListedRun(p, co, order);
      assert IsMax(free, p, co);
      Unlist(p, co, {});
      assert {} + Span(p, co) == Span(p, co);
      Split(p, co, order);
      Hold(p, order);
      r := Some(p);
    }

    /** A block that may be handed to free: allocated as such, or entirely reserved. */
    ghost predicate Freeable(p: nat, k: nat)
      reads this
    {
      && k <= TOP && Aligned(p, k) && p + Pow2(k) <= mmap.Length
      && (if p in held then held[p] == k else forall i: nat :: Within(i, p, k) ==> i !in free && !Owned(held, i))
    }

    /** The block to be freed goes into transit, whether it was allocated or reserved. */
    ghost method Detach(p: nat, k: nat)
      requires Valid() && Freeable(p, k)
      modifies this`held
      ensures Inv(Span(p, k)) && held == old(held) - {p}
    {
      if p in held {
        Release(p);
      } else {
        assert held - {p} == held;
        forall i | i in Span(p, k) ensures i < mmap.Length && i !in free && !Owned(held, i) { assert Within(i, p, k); }
      }
    }

    /** One round of the merging loop: the free buddy leaves its list and joins the block in transit. */
    method Merge(p: nat, k: nat) returns (q: nat)
      requires Inv(Span(p, k)) && k < TOP && Aligned(p, k) && BuddyOf(p, k) in freeList[k]
      modifies this`free, freeList
      ensures q == (if BuddyOf(p, k) < p then BuddyOf(p, k) else p) && Aligned(q, k + 1) && Inv(Span(q, k + 1))
      ensures free + Span(q, k + 1) == old(free) + Span(p, k)
    {
      var b := BuddyOf(p, k);
      Halves(p, k);
      ParentHalves(p, k);
      assert IsMax(free, b, k);
      forall i | i in Span(b, k) ensures i in free { assert Within(i, b, k); }
      Unlist(b, k, Span(p, k));
      q := p;
      if b < p {
        q := b;
      }
      assert q == Parent(p, k);
      assert Span(q, k + 1) == Span(p, k) + Span(b, k) by {
        forall i: nat ensures i in Span(q, k + 1) <==> i in Span(p, k) + Span(b, k) {
          assert i in Span(q, k + 1) <==> Within(i, q, k + 1);
          assert i in Span(p, k) <==> Within(i, p, k);
          assert i in Span(b, k) <==> Within(i, b, k);
        }
      }
    }

    /** The tests of __free_pages_node: true exactly when the whole buddy is free. */
    method BuddyFree(p: nat, k: nat) returns (yes: bool)
      requires Inv(Span(p, k)) && k < TOP && Aligned(p, k)
      ensures yes <==> AllFree(free, BuddyOf(p, k), k)
      ensures yes <==> BuddyOf(p, k) in freeList[k]
    {
      var b := BuddyOf(p, k);
      assert Within(b, b, k) && Within(b + Pow2(k) - 1, b, k);
      assert IsMax(free, b, k) ==> AllFree(free, b, k);
      if b >= mmap.Length {
        return false;
      }
      if b + Pow2(k) > mmap.Length {
        return false;
      }
      BuddyTest(p, k);
      if mmap[b].busy {
        return false;
      }
      if k != mmap[b].order {
        return false;
      }
      return true;
    }

    /** The merging loop of __free_pages_node. */
    method MergeAll(p0: nat, k0: nat) returns (p: nat, k: nat)
      requires Inv(Span(p0, k0)) && k0 <= TOP && Aligned(p0, k0)
      modifies this`free, freeList
      ensures k <= TOP && Aligned(p, k) && Inv(Span(p, k))
      ensures k < TOP ==> !AllFree(free, BuddyOf(p, k), k)
      ensures free + Span(p, k) == old(free) + Span(p0, k0)
    {
      p, k := p0, k0;
      while k < TOP
        invariant k <= TOP && Aligned(p, k) && Inv(Span(p, k))
        invariant free + Span(p, k) == old(free) + Span(p0, k0)
      {
        var yes := BuddyFree(p, k);
        if !yes {
          break;
        }
        p := Merge(p, k);
        k := k + 1;
      }
    }

    /** __free_pages_node. */
    method Free(p0: nat, k0: nat)
      requires Valid() && Freeable(p0, k0)
      modifies this, mmap, freeList
      ensures Valid() && free == old(free) + Span(p0, k0) && held == old(held) - {p0}
    {
      Detach(p0, k0);
      var p, k := MergeAll(p0, k0);
      List(p, k, Span(p, k));
      assert Span(p, k) - Span(p, k) == {};
    }

    /** __memory_free_region: the reserved pages from `first` on are freed in aligned blocks that tile them. */
    method FreeRegion(first: nat, pages: nat)
      requires Valid() && first + pages <= mmap.Length
      requires forall i: nat {:trigger Owned(held, i)} :: first <= i < first + pages ==> i !in free && !Owned(held, i)
      modifies this, mmap, freeList
      ensures Valid() && held == old(held)
      ensures forall i: nat :: i in free <==> i in old(free) || first <= i < first + pages
    {
      var pfn := first;
      while pfn != first + pages
        invariant first <= pfn <= first + pages && Valid() && held == old(held)
        invariant forall i: nat :: i in free <==> i in old(free) || first <= i < pfn
        decreases first + pages - pfn
      {
        var order := FitOrder(pfn, pages);
        assert pfn + Pow2(order) <= first + pages;
        forall i: nat | Within(i, pfn, order) ensures i !in free && !Owned(held, i) {
          assert first <= i < first + pages && !Owned(old(held), i);
        }
        assert Within(pfn, pfn, order);
        assert pfn in held ==> Within(pfn, pfn, held[pfn]);
        assert held - {pfn} == held;
        Free(pfn, order);
        assert forall i: nat {:trigger Within(i, pfn, order)} :: i in Span(pfn, order) <==> Within(i, pfn, order);
        pfn := pfn + Pow2(order);
      }
    }

    /** The lists follow from the free pages alone: allocating and freeing again restores every one of them. */
    method AllocThenFree(order: nat)
      requires Valid()
      modifies this, mmap, freeList
      ensures Valid() && free == old(free) && held == old(held)
      ensures forall k :: 0 <= k <= TOP ==> multiset(freeList[k]) == old(multiset(freeList[k]))
    {
      var r := Alloc(order);
      if r.Some? {
        assert Within(r.value + Pow2(order) - 1, r.value, held[r.value]);
        Free(r.value, order);
        assert forall i :: i in Span(r.value, order) ==> Within(i, r.value, order);
        assert held == old(held);
        assert free == old(free);
      }
      forall k | 0 <= k <= TOP ensures multiset(freeList[k]) == old(multiset(freeList[k])) {
        forall x: nat ensures x in freeList[k] <==> x in old(freeList[k]) {
          assert x in freeList[k] <==> IsMax(free, x, k);
          assert x in old(freeList[k]) <==> old(IsMax(free, x, k));
        }
        SameMembers(freeList[k], old(freeList[k]));
      }
    }

    /** Every free page lies in exactly one listed block. */
    lemma FreePageListed(i: nat) returns (p: nat, k: nat)
      requires Valid() && i in free
      ensures k <= TOP && p in freeList[k] && Within(i, p, k)
      ensures forall q: nat, j: nat :: j <= TOP && q in freeList[j] && Within(i, q, j) ==> q == p && j == k
    {
      assert AllFree(free, i, 0) by { assert Pow2(0) == 1; }
      p, k := MaxAround(free, i, 0);
      assert Within(i, p, k);
      forall q: nat, j: nat | j <= TOP && q in freeList[j] && Within(i, q, j) ensures q == p && j == k {
        assert IsMax(free, q, j);
        MaxDisjoint(free, p, k, q, j, i);
      }
    }
  }

  /** The free lists are a function of the set of free pages alone. */
  lemma SameFreeSameLists(a: MemoryNode, b: MemoryNode, k: nat)
    requires a.Valid() && b.Valid() && a.free == b.free && k <= TOP
    ensures multiset(a.freeList[k]) == multiset(b.freeList[k])
  {
    forall p: nat ensures p in a.freeList[k] <==> p in b.freeList[k] {
      assert p in a.freeList[k] <==> IsMax(a.free, p, k);
      assert p in b.freeList[k] <==> IsMax(b.free, p, k);
    }
    SameMembers(a.freeList[k], b.freeList[k]);
  }

  /** pfn_max_order: the largest order, up to TOP, to which the page number is aligned. */
  method MaxOrder(pfn: nat) returns (k: nat)
    ensures k <= TOP && Aligned(pfn, k) && (k < TOP ==> !Aligned(pfn, k + 1))
  {
    for i := 0 to TOP
      invariant Aligned(pfn, i)
    {
      BitAligned(pfn, i);
      if Bit(pfn, i) {
        return i;
      }
    }
    return TOP;
  }

  /** The inner loop of __memory_free_region: an aligned order whose block ends by `pages`, or 0. */
  method FitOrder(pfn: nat, pages: nat) returns (order: nat)
    ensures order <= TOP && Aligned(pfn, order) && (order == 0 || pfn + Pow2(order) <= pages)
  {
    order := MaxOrder(pfn);
    while order != 0 && pfn + Pow2(order) > pages
      invariant order <= TOP && Aligned(pfn, order)
    {
      AlignedBit(pfn, order - 1);
      order := order - 1;
    }
  }

  lemma {:induction false} BitAligned(p: nat, k: nat)
    requires Aligned(p, k)
    ensures Bit(p, k) <==> !Aligned(p, k + 1)
  {
    if k > 0 { BitAligned(p / 2, k - 1); }
  }

  /** Lists without repetition and with the same members are permutations of one another. */
  lemma SameMembers(s: seq<nat>, t: seq<nat>)
    requires NoDup(s) && NoDup(t) && forall x :: x in s <==> x in t
    ensures multiset(s) == multiset(t)
  {
    forall x ensures multiset(s)[x] == multiset(t)[x] {
      CountOnce(s, x);
      CountOnce(t, x);
    }
  }

  lemma {:induction false} CountOnce(s: seq<nat>, x: nat)
    requires NoDup(s)
    ensures multiset(s)[x] == if x in s then 1 else 0
  {
    if s != [] {
      CountOnce(s[1..], x);
      assert s == [s[0]] + s[1..];
    }
  }

  lemma {:induction false} AlignedBit(p: nat, k: nat)
    requires Aligned(p, k + 1)
    ensures !Bit(p, k) && Aligned(p, k)
  {
    if k > 0 { AlignedBit(p / 2, k - 1); }
  }

  /** The buddy of the lower half is the upper half. */
  lemma UpperHalf(p: nat, k: nat)
    requires Aligned(p, k + 1)
    ensures var b := BuddyOf(p, k);
            && b == p + Pow2(k) && BuddyOf(b, k) == p && Aligned(p, k) && Aligned(b, k)
            && Span(b, k) <= Span(p, k + 1) && Span(p, k + 1) - Span(b, k) == Span(p, k)
  {
    AlignedBit(p, k);
    Halves(p, k);
    Halves(BuddyOf(p, k), k);
    ParentHalves(p, k);
  }

  /** An aligned block that holds the buddy of p, but not as its head, holds p too. */
  lemma AroundBuddy(p: nat, k: nat, q: nat, j: nat)
    requires Aligned(p, k) && Aligned(q, j) && Within(BuddyOf(p, k), q, j) && (q != BuddyOf(p, k) || j > k)
    ensures Within(p, q, j)
  {
    var b := BuddyOf(p, k);
    Halves(p, k);
    ParentHalves(p, k);
    if j <= k {
      AlignedBelow(b, k, j);
      AlignedGap(q, b, j);
    } else {
      assert Within(b, b, k) && Within(p, p, k) && Within(p, Parent(b, k), k + 1) && Within(b, Parent(b, k), k + 1);
      Nested(Parent(b, k), k + 1, q, j, b);
    }
  }

  /** When p is not free, a free buddy of p is the head of a maximal block of order at most k. */
  lemma HeadOfFree(free: set<nat>, p: nat, k: nat) returns (j: nat)
    requires Aligned(p, k) && k < TOP && p !in free && BuddyOf(p, k) in free
    ensures j <= k && IsMax(free, BuddyOf(p, k), j)
  {
    var b := BuddyOf(p, k);
    assert AllFree(free, b, 0) by { assert Pow2(0) == 1; }
    var q;
    q, j := MaxAround(free, b, 0);
    assert Within(b, q, j);
    if q != b || j > k {
      AroundBuddy(p, k, q, j);
      assert false;
    }
  }
}
