/**
 Queues of threads: circular lists (list.c) that are only added to at the end and taken from at the front, as
 the run queue (scheduler.c:48-80) and the wait queues (locking.c:5-15, locking.h:71-90) are.
 */
module Queues {

  import opened Common
  import L = List

  /** The heads of the lists come after the cells that can be on them. */
  ghost predicate Holds(lists: map<int, seq<int>>, cells: int, content: seq<seq<int>>) {
    && (forall h {:trigger h in lists} :: h in lists <==> cells <= h < cells + |content|)
    && (forall i {:trigger content[i]} :: 0 <= i < |content| ==> lists[cells + i] == content[i])
    && (forall i, j {:trigger content[i][j]} :: 0 <= i < |content| && 0 <= j < |content[i]| ==>
        0 <= content[i][j] < cells)
  }

  /** On none of the queues. */
  ghost predicate Absent(content: seq<seq<int>>, x: int) {
    forall i {:trigger content[i]} :: 0 <= i < |content| ==> x !in content[i]
  }

  lemma AbsentLoose(lists: map<int, seq<int>>, cells: int, content: seq<seq<int>>, x: int)
    requires Holds(lists, cells, content) && Absent(content, x) && x < cells
    ensures L.Loose(lists, x)
  {
    forall h, i {:trigger L.Place(h, lists[h], i)} | h in lists && 0 <= i <= |lists[h]|
        ensures L.Place(h, lists[h], i) != x {
      assert lists[h] == content[h - cells];
      if i > 0 { assert lists[h][i - 1] in content[h - cells]; }
    }
  }

  class Queues {
    const cells: nat
    const heads: nat
    const links: L.Lists

    /** The members of each queue. */
    ghost var content: seq<seq<int>>

    ghost predicate Valid()
      reads this, links, links.next, links.prev
    {
      && |content| == heads
      && forall look {:trigger Inside(QueuePart, look)} :: Inside(QueuePart, look) ==>
           links.Valid() && links.next.Length == cells + heads && Holds(links.lists, cells, content)
    }

    constructor (n: nat, queues: nat)
      ensures Valid() && cells == n && heads == queues && content == seq(queues, _ => [])
      ensures fresh(links) && fresh(links.next) && fresh(links.prev)
    {
      cells, heads := n, queues;
      links := new L.Lists(n + queues, n);
      content := seq(queues, _ => []);
    }

    /** list_empty. */
    method Empty(h: nat) returns (empty: bool)
      requires Valid() && h < heads
      ensures empty == (content[h] == [])
    {
      assert Inside(QueuePart, true);
      assert links.lists[cells + h] == content[h];
      links.EmptyTells(cells + h);
      empty := links.Empty(cells + h);
    }

    /** list_add_tail. */
    method Push(x: int, h: nat)
      requires Valid() && 0 <= x < cells && h < heads && Absent(content, x)
      modifies this`content, links, links.next, links.prev
      ensures Valid() && content == old(content)[h := old(content[h]) + [x]]
    {
      assert Inside(QueuePart, true);
      assert links.lists[cells + h] == content[h];
      AbsentLoose(links.lists, cells, content, x);
      links.AddTail(x, cells + h);
      content := content[h := content[h] + [x]];
    }

    /** list_first and list_del. */
    method Pop(h: nat) returns (x: int)
      requires Valid() && h < heads && content[h] != []
      modifies this`content, links, links.next, links.prev
      ensures Valid() && x == old(content[h])[0] && 0 <= x < cells && content == old(content)[h := old(content[h])[1..]]
    {
      assert Inside(QueuePart, true);
      assert links.lists[cells + h] == content[h];
      assert 0 <= content[h][0] < cells;
      x := links.First(cells + h);
      links.Del(x, cells + h, 0);
      assert L.Removed(content[h], 0) == content[h][1..];
      content := content[h := content[h][1..]];
    }
  }
}
