/**
 A red-black tree of nodes with distinct keys, as the pages of a file (ramfs.c:320-349) and the threads
 by pid (threads.c:120-176) are kept. A key k is the area [k, k + 1) of the search tree of module Vma, whose
 descent then compares keys for less, equal and greater.
 */
module Index {

  import opened Common
  import opened RbTree
  import opened Vma

  /** `at` finds the node of every key, and every node is found. */
  ghost predicate Finds(area: map<Node, Area>, at: map<int, Node>) {
    && (forall n {:trigger area[n]} :: n in area ==>
        area[n].end == area[n].begin + 1 && area[n].begin in at &&
        at[area[n].begin] == n)
    && (forall k {:trigger at[k]} :: k in at ==> at[k] in area && area[at[k]].begin == k)
  }

  lemma FoundKey(area: map<Node, Area>, at: map<int, Node>, n: Node, k: int)
    requires Finds(area, at) && n in area && area[n].Overlaps(k, k + 1)
    ensures k in at && at[k] == n
  {
    assert at[area[n].begin] == n;
  }

  lemma MissingKey(area: map<Node, Area>, at: map<int, Node>, k: int)
    requires Finds(area, at) && forall m :: m in area ==> !area[m].Overlaps(k, k + 1)
    ensures k !in at
  {
    if k in at { assert area[at[k]].Overlaps(k, k + 1); assert false; }
  }

  lemma PutKey(area: map<Node, Area>, at: map<int, Node>, n: Node, k: int)
    requires Finds(area, at) && n !in area && k !in at
    ensures Finds(area[n := Area(k, k + 1, 0)], at[k := n])
  {
  }

  class Index {
    const mm: Mm

    /** The node of each key. */
    ghost var at: map<int, Node>

    ghost predicate Valid()
      reads this, mm, mm.tree, mm.tree.nodes
    {
      forall look {:trigger Inside(IndexPart, look)} :: Inside(IndexPart, look) ==> mm.Valid() && Finds(mm.area, at)
    }

    /** The link where a key belongs. */
    ghost predicate Link(p: Node?, s: Side, k: int)
      reads mm, mm.tree, mm.tree.nodes
    {
      forall look {:trigger Inside(IndexPart, look)} :: Inside(IndexPart, look) ==> mm.Fits(p, s, k, k + 1)
    }

    constructor ()
      ensures Valid() && at == map[] && mm.tree.nodes == {} && fresh(mm) && fresh(mm.tree)
    {
      mm := new Mm();
      at := map[];
    }

    lemma NodesIn(k: int)
      requires Valid() && k in at
      ensures at[k] in mm.tree.nodes
    {
      assert Inside(IndexPart, true);
    }

    /** The node of a key, or the link where the key belongs. */
    method Find(k: int) returns (n: Node?, p: Node?, s: Side)
      requires Valid()
      ensures n != null <==> k in at
      ensures n != null ==> at[k] == n
      ensures n == null ==> Link(p, s, k)
    {
      assert Inside(IndexPart, true);
      n, p, s := mm.Lookup(k, k + 1);
      if n != null { FoundKey(mm.area, at, n, k); } else { MissingKey(mm.area, at, k); }
    }

    /** rb_link and rb_insert of a node at the link that a search found. */
    method Put(node: Node, k: int, p: Node?, s: Side)
      requires Valid() && Link(p, s, k) && k !in at && node !in mm.tree.nodes
      modifies this, mm, mm.tree, mm.tree.nodes, node
      ensures Valid() && at == old(at)[k := node] && mm.tree.nodes == old(mm.tree.nodes) + {node}
    {
      assert Inside(IndexPart, true);
      PutKey(mm.area, at, node, k);
      mm.LinkVma(node, Area(k, k + 1, 0), p, s);
      at := at[k := node];
    }

    /** rb_erase of the node of a key. */
    method Take(node: Node, ghost k: int)
      requires Valid() && k in at && at[k] == node
      modifies this, mm, mm.tree, mm.tree.nodes
      ensures Valid() && at == old(at) - {k} && mm.tree.nodes == old(mm.tree.nodes) - {node}
    {
      assert Inside(IndexPart, true);
      mm.EraseVma(node);
      at := at - {k};
    }
  }
}
