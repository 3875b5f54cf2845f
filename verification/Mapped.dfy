/**
 Population makes walking safe: in the page tables that populate and release keep, the walk finds the
 table of level 0 of a page exactly when populate has made it, and no two paths share one.
 */
module Mapped {

  import P = PageTables
  import W = PageWalk

  /** The entries of table `p`, as the walk reads them, are those that populate wrote. */
  ghost predicate AgreesAt(at: map<P.Place, P.Frame>, mem: W.Memory, p: P.Place)
    requires p in at
  {
    var table := mem(at[p]);
    && |table| == W.PT_SIZE
    && forall j :: 0 <= j < W.PT_SIZE ==> EntryAgrees(table[j], P.EntryOf(at, p.level - 1, 512 * p.n + j))
  }

  ghost predicate EntryAgrees(e: W.Entry, f: P.Frame) {
    W.Down(e) == (f != 0) && (f != 0 ==> e.frame == f)
  }

  ghost predicate Agrees(at: map<P.Place, P.Frame>, mem: W.Memory) {
    forall p {:trigger AgreesAt(at, mem, p)} :: p in at && p.level >= 2 ==> AgreesAt(at, mem, p)
  }

  /** What the walk relies on: tables of their own that hang together, read as they were written. */
  ghost predicate Ready(at: map<P.Place, P.Frame>, root: P.Frame, mem: W.Memory) {
    && W.Tables(mem) && Agrees(at, mem) && P.Closed(at) && at[P.Place(4, 0)] == root
    && (forall p {:trigger at[p]} :: p in at ==> at[p] != 0 && 1 <= p.level <= 4)
    && (forall p {:trigger P.Alone(at, p)} :: p in at ==> P.Alone(at, p))
  }

  /** The number of the table of a level (counted as struct pt_iter does) on a path. */
  ghost function Number(d: seq<int>, level: int): int
    requires W.Digits(d) && 0 <= level <= 3
    decreases 3 - level
  {
    if level == 3 then 0 else 512 * Number(d, level + 1) + d[level + 1]
  }

  /** A path goes down to a level exactly when populate has made the table there. */
  lemma {:induction false} PathExists(at: map<P.Place, P.Frame>, root: P.Frame, mem: W.Memory, d: seq<int>, level: int)
    requires Ready(at, root, mem) && W.Digits(d) && 0 <= level <= 3
    ensures var x := P.Place(level + 1, Number(d, level));
            && (W.Open(mem, root, d, level) <==> x in at)
            && (x in at ==> W.TableOf(mem, root, d, level) == at[x])
    decreases 3 - level
  {
    if level < 3 {
      PathExists(at, root, mem, d, level + 1);
      var p, x := P.Place(level + 2, Number(d, level + 1)), P.Place(level + 1, Number(d, level));
      assert P.Parent(x) == p;
      if p in at {
        assert AgreesAt(at, mem, p);
        assert EntryAgrees(mem(at[p])[d[level + 1]], P.EntryOf(at, x.level, x.n));
        assert x in at ==> at[x] != 0;
      } else {
        assert x in at ==> P.HangsAt(at, x);
      }
    }
  }

  /** Different paths have different numbers, and a page has the number of its table. */
  lemma {:induction false} NumberUnique(d: seq<int>)
    requires W.Digits(d)
    ensures Number(d, 0) == d[3] * 262144 + d[2] * 512 + d[1] && W.Linear(d) == 512 * Number(d, 0) + d[0]
  {
    assert Number(d, 1) == 512 * Number(d, 2) + d[2];
    assert Number(d, 2) == 512 * Number(d, 3) + d[3] && Number(d, 3) == 0;
  }

  lemma TablesFormTree(at: map<P.Place, P.Frame>, root: P.Frame, mem: W.Memory)
    requires Ready(at, root, mem)
    ensures W.Tree(mem, root)
  {
    forall d, e, l | W.Digits(d) && W.Digits(e) && 0 <= l <= 3 && W.Open(mem, root, d, 0) && W.Open(mem, root, e, l)
      ensures W.TableOf(mem, root, d, 0) == W.TableOf(mem, root, e, l) ==>
              l == 0 && d[1] == e[1] && d[2] == e[2] && d[3] == e[3]
    {
      if W.TableOf(mem, root, d, 0) == W.TableOf(mem, root, e, l) { OneLeaf(at, root, mem, d, e, l); }
    }
  }

  lemma OneLeaf(at: map<P.Place, P.Frame>, root: P.Frame, mem: W.Memory, d: seq<int>, e: seq<int>, l: int)
    requires Ready(at, root, mem) && W.Digits(d) && W.Digits(e) && 0 <= l <= 3
    requires W.Open(mem, root, d, 0) && W.Open(mem, root, e, l) &&
             W.TableOf(mem, root, d, 0) == W.TableOf(mem, root, e, l)
    ensures l == 0 && d[1] == e[1] && d[2] == e[2] && d[3] == e[3]
  {
    PathExists(at, root, mem, d, 0);
    PathExists(at, root, mem, e, l);
    assert P.Alone(at, P.Place(1, Number(d, 0)));
    NumberUnique(d);
    NumberUnique(e);
  }

  /** The table of level 0 of a page, in the numbering of struct pt_iter. */
  function LeafOf(v: int): P.Place {
    P.Place(1, v / 512)
  }

  /** The walk over a range stays at level 0 exactly when every page has its table. */
  lemma PopulatedExactly(at: map<P.Place, P.Frame>, root: P.Frame, mem: W.Memory, begin: int, count: int)
    requires Ready(at, root, mem) && 0 <= begin && begin + count <= W.PAGES
    ensures W.Populated(mem, root, begin, count) <==> forall v :: begin <= v < begin + count ==> LeafOf(v) in at
  {
    if W.Populated(mem, root, begin, count) {
      forall v | begin <= v < begin + count ensures LeafOf(v) in at {
        W.LinearDigits(v);
        var d := W.DigitsOf(v);
        assert W.Open(mem, root, d, 0);
        PathExists(at, root, mem, d, 0);
        NumberUnique(d);
      }
    } else {
      var d :| W.Digits(d) && begin <= W.Linear(d) < begin + count && !W.Open(mem, root, d, 0);
      PathExists(at, root, mem, d, 0);
      NumberUnique(d);
      assert LeafOf(W.Linear(d)) !in at;
    }
  }

  /** No table of level 0 is needed for an empty range: it must begin where the slot around it does. */
  ghost predicate StartsSlot(at: map<P.Place, P.Frame>, v: int)
    requires 0 <= v < W.PAGES
  {
    W.LinearDigits(v);
    var d := W.DigitsOf(v);
    forall l :: 0 < l <= 3 && P.Place(l + 1, Number(d, l)) in at && P.Place(l, Number(d, l - 1)) !in at ==>
        v % W.Span(l) == 0
  }

  /** The loops of mm.c over a range never trip over their assertion on the level. */
  ghost predicate Walks(at: map<P.Place, P.Frame>, begin: int, count: int)
    requires W.Fits(begin, count)
  {
    if count == 0 then StartsSlot(at, begin) else forall v :: begin <= v < begin + count ==> LeafOf(v) in at
  }

  lemma ClearExactly(at: map<P.Place, P.Frame>, root: P.Frame, mem: W.Memory, begin: int, count: int)
    requires Ready(at, root, mem) && W.Fits(begin, count)
    ensures W.Clear(mem, root, begin, count) <==> Walks(at, begin, count)
  {
    if count == 0 {
      W.LinearDigits(begin);
      var d := W.DigitsOf(begin);
      forall l | 0 <= l <= 3 ensures W.Open(mem, root, d, l) <==> P.Place(l + 1, Number(d, l)) in at {
        PathExists(at, root, mem, d, l);
      }
    } else {
      PopulatedExactly(at, root, mem, begin, count);
    }
  }
}
