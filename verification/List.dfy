/**
 Circular doubly linked lists whose links live inside their elements (list.c).

 A cell is a number; some cells are heads. `lists` is the ghost content of each list. A cell that has
 been taken off a list keeps its old links, as in the source.
 */
module List {

  /** Going round the list: place 0 and place |s| + 1 are the head. */
  ghost function Place(h: int, s: seq<int>, i: int): int {
    if 0 < i <= |s| then s[i - 1] else h
  }

  /** The links of list `h` lead through its members and back. */
  ghost predicate Ring(next: seq<int>, prev: seq<int>, h: int, s: seq<int>) {
    |next| == |prev| && forall i {:trigger LinkAt(next, prev, h, s, i)} :: 0 <= i <= |s| ==> LinkAt(next, prev, h, s, i)
  }

  ghost predicate LinkAt(next: seq<int>, prev: seq<int>, h: int, s: seq<int>, i: int) {
    Linked(next, prev, Place(h, s, i), Place(h, s, i + 1))
  }

  ghost predicate Linked(next: seq<int>, prev: seq<int>, a: int, b: int) {
    0 <= a < |next| && 0 <= b < |prev| && next[a] == b && prev[b] == a
  }

  /** No cell is on two lists, twice on one, or both a head and a member. */
  ghost predicate Apart(lists: map<int, seq<int>>) {
    forall h, i, g, j {:trigger Place(h, lists[h], i), Place(g, lists[g], j)} ::
      h in lists && g in lists && 0 <= i <= |lists[h]| && 0 <= j <= |lists[g]| &&
          Place(h, lists[h], i) == Place(g, lists[g], j)
      ==> h == g && i == j
  }

  /** Neither a head nor a member of a list. */
  ghost predicate Loose(lists: map<int, seq<int>>, x: int) {
    forall h, i {:trigger Place(h, lists[h], i)} :: h in lists && 0 <= i <= |lists[h]| ==> Place(h, lists[h], i) != x
  }

  ghost predicate Sound(next: seq<int>, prev: seq<int>, lists: map<int, seq<int>>) {
    |next| == |prev| && Apart(lists) && forall h {:trigger lists[h]} :: h in lists ==> Ring(next, prev, h, lists[h])
  }

  ghost function Inserted(s: seq<int>, i: int, x: int): seq<int>
    requires 0 <= i <= |s|
  {
    s[..i] + [x] + s[i..]
  }

  ghost function Removed(s: seq<int>, i: int): seq<int>
    requires 0 <= i < |s|
  {
    s[..i] + s[i + 1..]
  }

  lemma InsertedPlace(h: int, s: seq<int>, i: int, x: int, k: int)
    requires 0 <= i <= |s| && 0 <= k <= |s| + 2
    ensures Place(h, Inserted(s, i, x), k) == if k == i + 1 then x else if k <= i then Place(h, s, k)
            else Place(h, s, k - 1)
  {
  }

  lemma RemovedPlace(h: int, s: seq<int>, i: int, k: int)
    requires 0 <= i < |s| && 0 <= k <= |s|
    ensures Place(h, Removed(s, i), k) == if k <= i then Place(h, s, k) else Place(h, s, k + 1)
  {
  }

  lemma InsertApart(lists: map<int, seq<int>>, h: int, i: int, x: int)
    requires Apart(lists) && h in lists && 0 <= i <= |lists[h]| && Loose(lists, x)
    ensures Apart(lists[h := Inserted(lists[h], i, x)])
  {
    var lists' := lists[h := Inserted(lists[h], i, x)];
    forall g, j, f, k | g in lists' && f in lists' && 0 <= j <= |lists'[g]| && 0 <= k <= |lists'[f]| &&
        Place(g, lists'[g], j) == Place(f, lists'[f], k)
      ensures g == f && j == k
    {
      if g == h { InsertedPlace(h, lists[h], i, x, j); }
      if f == h { InsertedPlace(h, lists[h], i, x, k); }
    }
  }

  lemma RemoveApart(lists: map<int, seq<int>>, h: int, i: int)
    requires Apart(lists) && h in lists && 0 <= i < |lists[h]|
    ensures Apart(lists[h := Removed(lists[h], i)]) && Loose(lists[h := Removed(lists[h], i)], lists[h][i])
  {
    var lists' := lists[h := Removed(lists[h], i)];
    forall g, j, f, k | g in lists' && f in lists' && 0 <= j <= |lists'[g]| && 0 <= k <= |lists'[f]| &&
        Place(g, lists'[g], j) == Place(f, lists'[f], k)
      ensures g == f && j == k
    {
      if g == h { RemovedPlace(h, lists[h], i, j); }
      if f == h { RemovedPlace(h, lists[h], i, k); }
    }
    forall g, j | g in lists' && 0 <= j <= |lists'[g]| ensures Place(g, lists'[g], j) != lists[h][i] {
      assert Place(h, lists[h], i + 1) == lists[h][i];
      if g == h { RemovedPlace(h, lists[h], i, j); }
    }
  }

  lemma InsertRing(next: seq<int>, prev: seq<int>, lists: map<int, seq<int>>, h: int, i: int, x: int)
    requires Sound(next, prev, lists) && h in lists && 0 <= i <= |lists[h]| && Loose(lists, x) && 0 <= x < |next|
    ensures var before, after := Place(h, lists[h], i), Place(h, lists[h], i + 1);
            && Linked(next, prev, before, after)
            && Sound(next[x := after][before := x], prev[x := before][after := x], lists[h := Inserted(lists[h], i, x)])
  {
    var s, s', before, after := lists[h], Inserted(lists[h], i, x), Place(h, lists[h], i), Place(h, lists[h], i + 1);
    assert Ring(next, prev, h, s);
    assert LinkAt(next, prev, h, s, i);
    var next', prev', lists' := next[x := after][before := x], prev[x := before][after := x], lists[h := s'];
    InsertApart(lists, h, i, x);
    forall k | 0 <= k <= |s'| ensures LinkAt(next', prev', h, s', k) {
      InsertedPlace(h, s, i, x, k);
      InsertedPlace(h, s, i, x, k + 1);
      if k < i { InsertLink(next, prev, lists, h, i, x, h, k); }
      if k > i + 1 { InsertLink(next, prev, lists, h, i, x, h, k - 1); }
      NewLinks(next, prev, lists, h, i, x);
    }
    forall g | g in lists' && g != h ensures Ring(next', prev', g, lists'[g]) {
      forall k | 0 <= k <= |lists[g]| ensures LinkAt(next', prev', g, lists[g], k) {
        InsertLink(next, prev, lists, h, i, x, g, k);
      }
    }
  }

  lemma NewLinks(next: seq<int>, prev: seq<int>, lists: map<int, seq<int>>, h: int, i: int, x: int)
    requires Sound(next, prev, lists) && h in lists && 0 <= i <= |lists[h]| && Loose(lists, x) && 0 <= x < |next|
    ensures var before, after := Place(h, lists[h], i), Place(h, lists[h], i + 1);
            && Linked(next, prev, before, after)
            && Linked(next[x := after][before := x], prev[x := before][after := x], before, x)
            && Linked(next[x := after][before := x], prev[x := before][after := x], x, after)
  {
    assert Ring(next, prev, h, lists[h]);
    assert LinkAt(next, prev, h, lists[h], i);
    if i == |lists[h]| { assert Place(h, lists[h], 0) == Place(h, lists[h], i + 1); }
  }

  /** An insertion breaks no link but the one it goes into. */
  lemma InsertLink(next: seq<int>, prev: seq<int>, lists: map<int, seq<int>>, h: int, i: int, x: int, g: int, k: int)
    requires Sound(next, prev, lists) && h in lists && 0 <= i <= |lists[h]| && Loose(lists, x) && 0 <= x < |next|
    requires g in lists && 0 <= k <= |lists[g]|
    ensures var before, after := Place(h, lists[h], i), Place(h, lists[h], i + 1);
            && Linked(next, prev, before, after)
            && (g != h || k != i ==>
                  Linked(next[x := after][before := x], prev[x := before][after := x], Place(g, lists[g], k),
                      Place(g, lists[g], k + 1)))
  {
    assert Ring(next, prev, h, lists[h]) && Ring(next, prev, g, lists[g]);
    var a, b := Place(g, lists[g], k), Place(g, lists[g], k + 1);
    assert LinkAt(next, prev, h, lists[h], i) && LinkAt(next, prev, g, lists[g], k);
    if k == |lists[g]| { assert Place(g, lists[g], 0) == b; }
  }

  lemma RemoveRing(next: seq<int>, prev: seq<int>, lists: map<int, seq<int>>, h: int, i: int)
    requires Sound(next, prev, lists) && h in lists && 0 <= i < |lists[h]|
    ensures var before, after := Place(h, lists[h], i), Place(h, lists[h], i + 2);
            && Linked(next, prev, before, lists[h][i]) && Linked(next, prev, lists[h][i], after)
            && Sound(next[before := after], prev[after := before], lists[h := Removed(lists[h], i)])
  {
    var s, s', before, after := lists[h], Removed(lists[h], i), Place(h, lists[h], i), Place(h, lists[h], i + 2);
    assert Ring(next, prev, h, s);
    assert LinkAt(next, prev, h, s, i) && LinkAt(next, prev, h, s, i + 1);
    var next', prev', lists' := next[before := after], prev[after := before], lists[h := s'];
    RemoveApart(lists, h, i);
    forall k | 0 <= k <= |s'| ensures LinkAt(next', prev', h, s', k) {
      RemovedPlace(h, s, i, k);
      RemovedPlace(h, s, i, k + 1);
      if k < i { RemoveLink(next, prev, lists, h, i, h, k); }
      if k > i { RemoveLink(next, prev, lists, h, i, h, k + 1); }
    }
    forall g | g in lists' && g != h ensures Ring(next', prev', g, lists'[g]) {
      forall k | 0 <= k <= |lists[g]| ensures LinkAt(next', prev', g, lists[g], k) {
        RemoveLink(next, prev, lists, h, i, g, k);
      }
    }
  }

  /** A removal breaks no link but the two of the removed member. */
  lemma RemoveLink(next: seq<int>, prev: seq<int>, lists: map<int, seq<int>>, h: int, i: int, g: int, k: int)
    requires Sound(next, prev, lists) && h in lists && 0 <= i < |lists[h]| && g in lists && 0 <= k <= |lists[g]|
    ensures var before, after := Place(h, lists[h], i), Place(h, lists[h], i + 2);
            && Linked(next, prev, before, lists[h][i]) && Linked(next, prev, lists[h][i], after)
            && (g != h || (k != i && k != i + 1) ==>
                LinkAt(next[before := after], prev[after := before], g, lists[g], k))
  {
    assert Ring(next, prev, h, lists[h]) && Ring(next, prev, g, lists[g]);
    assert LinkAt(next, prev, h, lists[h], i) && LinkAt(next, prev, h, lists[h], i + 1) &&
           LinkAt(next, prev, g, lists[g], k);
    if k == |lists[g]| { assert Place(g, lists[g], 0) == Place(g, lists[g], k + 1); }
    if i + 1 == |lists[h]| { assert Place(h, lists[h], 0) == Place(h, lists[h], i + 2); }
  }

  ghost function EmptyLists(first: int, cells: int): (m: map<int, seq<int>>)
    ensures forall h {:trigger h in m} :: (h in m <==> first <= h < cells) && (h in m ==> m[h] == [])
    decreases cells - first
  {
    if cells <= first then map[] else EmptyLists(first, cells - 1)[cells - 1 := []]
  }

  class Lists {
    const next: array<int>
    const prev: array<int>
    ghost var lists: map<int, seq<int>>

    ghost predicate Valid()
      reads this, next, prev
    {
      next != prev && Sound(next[..], prev[..], lists)
    }

    /**
     `cells` cells, of which those from `first` on are the heads of empty lists and the others are linked to
     nothing yet.
     */
    constructor (cells: nat, first: nat)
      requires first <= cells
      ensures fresh(next) && fresh(prev) && Valid() && next.Length == cells
      ensures lists == EmptyLists(first, cells)
    {
      next, prev := new int[cells](i requires 0 <= i < cells => i), new int[cells](i requires 0 <= i < cells => i);
      lists := EmptyLists(first, cells);
      new;
      forall h | h in lists ensures Ring(next[..], prev[..], h, lists[h]) {
        assert LinkAt(next[..], prev[..], h, [], 0);
      }
    }

    /** list_empty. */
    function Empty(x: int): bool
      requires 0 <= x < next.Length
      reads next
    {
      next[x] == x
    }

    /** Of a head, list_empty tells whether the list has members. */
    lemma EmptyTells(h: int)
      requires Valid() && h in lists
      ensures 0 <= h < next.Length && (Empty(h) <==> lists[h] == [])
    {
      assert LinkAt(next[..], prev[..], h, lists[h], 0);
      assert lists[h] != [] ==> Place(h, lists[h], 1) != Place(h, lists[h], 0);
    }

    /** A member of a list is never linked to itself. */
    lemma MemberLinked(h: int, x: int)
      requires Valid() && h in lists && x in lists[h]
      ensures 0 <= x < next.Length && next[x] != x && !Loose(lists, x)
    {
      var i :| 0 <= i < |lists[h]| && lists[h][i] == x;
      assert LinkAt(next[..], prev[..], h, lists[h], i + 1);
      assert Place(h, lists[h], i + 1) == x;
      assert Place(h, lists[h], i + 2) == next[x];
      if i + 1 == |lists[h]| { assert Place(h, lists[h], 0) == Place(h, lists[h], i + 2); }
    }

    /** list_first. */
    method First(h: int) returns (x: int)
      requires Valid() && h in lists && lists[h] != []
      ensures x == lists[h][0]
    {
      assert LinkAt(next[..], prev[..], h, lists[h], 0);
      x := next[h];
    }

    /** list_init of a cell that is on no list. */
    method Init(x: int)
      requires Valid() && 0 <= x < next.Length && Loose(lists, x)
      modifies next, prev
      ensures Valid() && next[x] == x
      ensures forall y :: 0 <= y < next.Length && y != x ==> next[y] == old(next[y])
    {
      next[x] := x;
      prev[x] := x;
      forall h | h in lists ensures Ring(next[..], prev[..], h, lists[h]) {
        forall k | 0 <= k <= |lists[h]| ensures LinkAt(next[..], prev[..], h, lists[h], k) {
          assert old(LinkAt(next[..], prev[..], h, lists[h], k));
          if k == |lists[h]| { assert Place(h, lists[h], 0) == Place(h, lists[h], k + 1); }
        }
      }
    }

    /** list_insert, between the places i and i + 1 of list `h`. */
    method Insert(x: int, before: int, after: int, ghost h: int, ghost i: int)
      requires Valid() && 0 <= x < next.Length && Loose(lists, x)
      requires h in lists && 0 <= i <= |lists[h]| && before == Place(h, lists[h], i) &&
               after == Place(h, lists[h], i + 1)
      modifies this`lists, next, prev
      ensures Valid() && lists == old(lists)[h := Inserted(old(lists[h]), i, x)]
      ensures forall y :: 0 <= y < next.Length && Loose(old(lists), y) && y != x ==> next[y] == old(next[y])
    {
      InsertRing(next[..], prev[..], lists, h, i, x);
      prev[x] := before;
      next[x] := after;
      next[before] := x;
      prev[after] := x;
      lists := lists[h := Inserted(lists[h], i, x)];
      assert next[..] == old(next[..])[x := after][before := x];
      assert prev[..] == old(prev[..])[x := before][after := x];
    }

    method Add(x: int, h: int)
      requires Valid() && 0 <= x < next.Length && Loose(lists, x) && h in lists
      modifies this`lists, next, prev
      ensures Valid() && lists == old(lists)[h := [x] + old(lists[h])]
      ensures forall y :: 0 <= y < next.Length && Loose(old(lists), y) && y != x ==> next[y] == old(next[y])
    {
      assert LinkAt(next[..], prev[..], h, lists[h], 0);
      assert Inserted(lists[h], 0, x) == [x] + lists[h];
      Insert(x, h, next[h], h, 0);
    }

    method AddTail(x: int, h: int)
      requires Valid() && 0 <= x < next.Length && Loose(lists, x) && h in lists
      modifies this`lists, next, prev
      ensures Valid() && lists == old(lists)[h := old(lists[h]) + [x]]
      ensures forall y :: 0 <= y < next.Length && Loose(old(lists), y) && y != x ==> next[y] == old(next[y])
    {
      assert LinkAt(next[..], prev[..], h, lists[h], |lists[h]|);
      assert Inserted(lists[h], |lists[h]|, x) == lists[h] + [x];
      Insert(x, prev[h], h, h, |lists[h]|);
    }

    /** list_del: the member leaves its list, with its own links left as they were. */
    method Del(x: int, ghost h: int, ghost i: int)
      requires Valid() && h in lists && 0 <= i < |lists[h]| && lists[h][i] == x
      modifies this`lists, next, prev
      ensures Valid() && lists == old(lists)[h := Removed(old(lists[h]), i)] && Loose(lists, x)
      ensures 0 <= x < next.Length && next[x] != x && prev[x] == old(prev[x]) && next[x] == old(next[x])
      ensures forall y :: 0 <= y < next.Length && Loose(old(lists), y) ==> next[y] == old(next[y])
    {
      RemoveRing(next[..], prev[..], lists, h, i);
      RemoveApart(lists, h, i);
      MemberLinked(h, x);
      var before, after := prev[x], next[x];
      next[before] := after;
      prev[after] := before;
      lists := lists[h := Removed(lists[h], i)];
      assert next[..] == old(next[..])[before := after];
      assert prev[..] == old(prev[..])[after := before];
    }

    /** list_size. */
    method Size(h: int) returns (size: nat)
      requires Valid() && h in lists
      ensures size == |lists[h]|
    {
      size := 0;
      assert LinkAt(next[..], prev[..], h, lists[h], 0);
      var pos := next[h];
      while pos != h
        invariant size <= |lists[h]| && pos == Place(h, lists[h], size + 1)
        decreases |lists[h]| - size
      {
        assert LinkAt(next[..], prev[..], h, lists[h], size + 1);
        size := size + 1;
        pos := next[pos];
      }
      assert Place(h, lists[h], 0) == h;
    }
  }
}
