/**
 An address space (mm.c:218-437): the VMA tree, the page tables and the entries of the pages together.
 They are in step as long as a page has page tables exactly when some area maps it.
 */
module Space {

  import opened Common
  import R = RbTree
  import V = Vma
  import T = PageTables
  import W = PageWalk
  import M = Mapped

  /** The pages of the lower half of the address space. */
  const USER := 34359738368

  // ----- areas and counts -----

  ghost predicate Mapped(area: map<R.Node, V.Area>, a: int) {
    V.PermAt(area, a).Some?
  }

  /** Whole pages are mapped, and only in the lower half. */
  ghost predicate PageWise(area: map<R.Node, V.Area>) {
    forall a {:trigger WholeAt(area, a)} :: WholeAt(area, a)
  }

  ghost predicate WholeAt(area: map<R.Node, V.Area>, a: int) {
    (Mapped(area, a) ==> 0 <= a < 4096 * USER) && (Mapped(area, a) <==> Mapped(area, a - a % 4096))
  }

  /** Areas begin and end at pages of the lower half. */
  ghost predicate Paged(area: map<R.Node, V.Area>) {
    forall n {:trigger area[n]} :: n in area ==> WholeArea(area[n])
  }

  ghost predicate WholeArea(x: V.Area) {
    x.begin % 4096 == 0 && x.end % 4096 == 0 && 0 <= x.begin && x.end <= 4096 * USER
  }

  lemma PagedWhole(area: map<R.Node, V.Area>)
    requires Paged(area) && V.Apart(area)
    ensures PageWise(area)
  {
    forall a ensures WholeAt(area, a) {
      if Mapped(area, a) { SamePage(area, a, a - a % 4096); SamePage(area, a, a); }
      if Mapped(area, a - a % 4096) { SamePage(area, a - a % 4096, a); }
    }
  }

  /** Addresses of one page are mapped alike. */
  lemma SamePage(area: map<R.Node, V.Area>, a: int, c: int)
    requires Paged(area) && V.Apart(area) && a / 4096 == c / 4096 && Mapped(area, a)
    ensures Mapped(area, c) && 0 <= c < 4096 * USER
  {
    var n :| n in area && area[n].Has(a);
    OnePage(area[n], a, c);
    V.PermUnique(area, n, c);
  }

  lemma OnePage(x: V.Area, a: int, c: int)
    requires WholeArea(x) && x.Has(a) && a / 4096 == c / 4096
    ensures x.Has(c) && 0 <= c < 4096 * USER
  {
  }

  /** A page counts once when it is mapped. */
  ghost function CountOf(area: map<R.Node, V.Area>): int -> int {
    v => if Mapped(area, 4096 * v) then 1 else 0
  }

  /** The permissions after a range has been set to `x`. */
  ghost predicate Painted(area: map<R.Node, V.Area>, area': map<R.Node, V.Area>, b: int, e: int, x: Option<int>) {
    forall a {:trigger V.PermAt(area', a)} {:trigger Mapped(area', a)} ::
      V.PermAt(area', a) == if b <= a < e then x else V.PermAt(area, a)
  }

  lemma CutsPages(b: int, e: int, a: int)
    requires b % 4096 == 0 && a - a % 4096 != e - e % 4096
    ensures b <= a < e <==> b <= a - a % 4096 < e
  {
  }

  /** An end inside a page leaves whole pages exactly when that page was not mapped. */
  lemma CutPageWise(area: map<R.Node, V.Area>, area': map<R.Node, V.Area>, pb: int, e: int)
    requires PageWise(area) && 0 <= 4096 * pb < e <= 4096 * USER && e % 4096 != 0 &&
             Painted(area, area', 4096 * pb, e, None)
    ensures PageWise(area') <==> !Mapped(area, e - e % 4096)
  {
    var p := e - e % 4096;
    if Mapped(area, p) {
      var a := p + 4095;
      assert a - a % 4096 == p;
      assert WholeAt(area, a);
      assert Mapped(area', a) && !Mapped(area', p);
      assert !WholeAt(area', a);
    } else {
      forall a ensures WholeAt(area', a) {
        assert WholeAt(area, a);
        if a - a % 4096 != p { CutsPages(4096 * pb, e, a); }
      }
    }
  }

  ghost predicate Hits(area: map<R.Node, V.Area>, n: R.Node, b: int, e: int) {
    n in area && area[n].Overlaps(b, e)
  }

  /** Some area overlaps the range. */
  ghost predicate Taken(area: map<R.Node, V.Area>, b: int, e: int) {
    exists n {:trigger Hits(area, n, b, e)} :: n in area && Hits(area, n, b, e)
  }

  lemma FreePages(area: map<R.Node, V.Area>, b: int, e: int)
    requires V.Covered(area, b, e) == {}
    ensures forall v {:trigger Mapped(area, 4096 * v)} :: b <= 4096 * v < e ==> !Mapped(area, 4096 * v)
  {
    forall v | b <= 4096 * v < e ensures !Mapped(area, 4096 * v) {
      assert 4096 * v !in V.Covered(area, b, e);
    }
  }

  lemma PlusCounts(area: map<R.Node, V.Area>, area': map<R.Node, V.Area>, pb: int, pe: int, perm: int)
    requires Painted(area, area', 4096 * pb, 4096 * pe, Some(perm)) && forall v :: pb <= v < pe ==>
             !Mapped(area, 4096 * v)
    ensures T.SameCounts(T.Everywhere(T.Plus(CountOf(area), pb, pe, 1)), T.Everywhere(CountOf(area')))
  {
    forall v ensures CountOf(area')(v) == T.Plus(CountOf(area), pb, pe, 1)(v) {
      assert pb <= v < pe <==> 4096 * pb <= 4096 * v < 4096 * pe;
      assert V.PermAt(area', 4096 * v) == if 4096 * pb <= 4096 * v < 4096 * pe then Some(perm)
             else V.PermAt(area, 4096 * v);
    }
  }

  /** The counts that the areas ask for after the range is gone. */
  lemma TakenCounts(area: map<R.Node, V.Area>, area': map<R.Node, V.Area>, pb: int, e: int, pe: int)
    requires Painted(area, area', 4096 * pb, e, None) && 4096 * (pe - 1) < e <= 4096 * pe
    ensures T.SameCounts(T.Everywhere(T.Taken(CountOf(area), pb, pe)), T.Everywhere(CountOf(area')))
  {
    forall v ensures CountOf(area')(v) == T.Taken(CountOf(area), pb, pe)(v) {
      assert pb <= v < pe <==> 4096 * pb <= 4096 * v < e;
      assert V.PermAt(area', 4096 * v) == if 4096 * pb <= 4096 * v < e then None else V.PermAt(area, 4096 * v);
    }
  }

  // ----- the page tables as memory -----

  /** An entry as the walk reads it: 0 is absent, anything else is a frame. */
  function Pte(x: T.Frame): W.Entry {
    if x == 0 then W.ABSENT else W.Entry(true, false, x, 0)
  }

  function FrameOf(e: W.Entry): T.Frame {
    if e.present then e.frame else 0
  }

  function Blank(): (r: seq<W.Entry>)
    ensures |r| == W.PT_SIZE
  {
    seq(W.PT_SIZE, _ => W.ABSENT)
  }

  function Ptes(s: seq<T.Frame>): (r: seq<W.Entry>)
    ensures |r| == |s|
  {
    seq(|s|, j requires 0 <= j < |s| => Pte(s[j]))
  }

  /** The memory that holds these tables. */
  function MemOf(ents: map<T.Frame, seq<T.Frame>>): W.Memory {
    f => if f in ents && |ents[f]| == W.PT_SIZE then Ptes(ents[f]) else Blank()
  }

  /** The tables in this memory. */
  function EntsOf(ents: map<T.Frame, seq<T.Frame>>, mem: W.Memory): map<T.Frame, seq<T.Frame>> {
    map f | f in ents :: if |mem(f)| == W.PT_SIZE then
        seq(W.PT_SIZE, j requires 0 <= j < W.PT_SIZE => FrameOf(mem(f)[j])) else ents[f]
  }

  /** The walk over this memory reads what populate wrote. */
  lemma MemReady(s: T.Tabs, ents: map<T.Frame, seq<T.Frame>>, frames: set<T.Frame>, root: T.Frame)
    requires T.SoundTables(s, ents, frames, root)
    ensures M.Ready(s.at, root, MemOf(ents)) && root != 0
  {
    forall p | p in s.at && p.level >= 2 ensures M.AgreesAt(s.at, MemOf(ents), p) {
      MemAgrees(s, ents, frames, root, p);
    }
    assert s.at[T.Place(4, 0)] in frames;
  }

  lemma MemAgrees(s: T.Tabs, ents: map<T.Frame, seq<T.Frame>>, frames: set<T.Frame>, root: T.Frame, p: T.Place)
    requires T.SoundTables(s, ents, frames, root) && p in s.at && p.level >= 2
    ensures M.AgreesAt(s.at, MemOf(ents), p)
  {
    assert T.LinkedAt(s.at, ents, p);
    var f := s.at[p];
    assert MemOf(ents)(f) == Ptes(ents[f]);
    forall j | 0 <= j < W.PT_SIZE ensures M.EntryAgrees(Ptes(ents[f])[j], T.EntryOf(s.at, p.level - 1, 512 * p.n + j)) {
      assert ents[f][j] == T.EntryOf(s.at, p.level - 1, 512 * p.n + j);
    }
  }

  /** The entry of a page that has a table of level 0. */
  ghost function EntryOf(at: map<T.Place, T.Frame>, ents: map<T.Frame, seq<T.Frame>>, v: int): T.Frame {
    var x := M.LeafOf(v);
    if x in at && at[x] in ents && |ents[at[x]]| == W.PT_SIZE then ents[at[x]][v % 512] else 0
  }

  /** After a walk that wrote `es`: the tables above level 0 are as they were, and the pages hold `es`. */
  lemma WalkedTables(s: T.Tabs, ents: map<T.Frame, seq<T.Frame>>, frames: set<T.Frame>, root: T.Frame, mem: W.Memory,
                     begin: int, es: seq<W.Entry>)
    requires T.SoundTables(s, ents, frames, root) && W.Fits(begin, |es|)
    requires W.Tables(mem) && W.Wrote(MemOf(ents), mem, root, begin, es)
    ensures T.SoundTables(s, EntsOf(ents, mem), frames, root)
    ensures forall v {:trigger EntryOf(s.at, EntsOf(ents, mem), v)} :: 0 <= v < W.PAGES && M.LeafOf(v) in s.at ==>
              EntryOf(s.at, EntsOf(ents, mem), v) == if begin <= v < begin + |es| then FrameOf(es[v - begin])
                  else EntryOf(s.at, ents, v)
  {
    var ents' := EntsOf(ents, mem);
    MemReady(s, ents, frames, root);
    forall p | p in s.at && p.level >= 2 ensures T.LinkedAt(s.at, ents', p) {
      assert T.LinkedAt(s.at, ents, p);
      UpperSame(s, ents, frames, root, mem, p);
    }
    forall v | 0 <= v < W.PAGES && M.LeafOf(v) in s.at
      ensures EntryOf(s.at, ents', v) == if begin <= v < begin + |es| then FrameOf(es[v - begin])
              else EntryOf(s.at, ents, v)
    {
      PageWritten(s, ents, frames, root, mem, begin, es, v);
    }
  }

  lemma UpperSame(s: T.Tabs, ents: map<T.Frame, seq<T.Frame>>, frames: set<T.Frame>, root: T.Frame, mem: W.Memory,
                  p: T.Place)
    requires T.SoundTables(s, ents, frames, root) && M.Ready(s.at, root, MemOf(ents)) && W.Tables(mem)
    requires (forall f {:trigger mem(f)} :: mem(f) == MemOf(ents)(f) || W.IsLeaf(MemOf(ents), root, f)) &&
             p in s.at && p.level >= 2
    ensures s.at[p] in ents && EntsOf(ents, mem)[s.at[p]] == ents[s.at[p]]
  {
    var f := s.at[p];
    NotLeaf(s, ents, frames, root, p);
    assert mem(f) == MemOf(ents)(f) == Ptes(ents[f]);
  }

  lemma NotLeaf(s: T.Tabs, ents: map<T.Frame, seq<T.Frame>>, frames: set<T.Frame>, root: T.Frame, p: T.Place)
    requires T.SoundTables(s, ents, frames, root) && M.Ready(s.at, root, MemOf(ents)) && p in s.at && p.level >= 2
    ensures !W.IsLeaf(MemOf(ents), root, s.at[p])
  {
    var mem := MemOf(ents);
    forall d | W.Digits(d) && W.Open(mem, root, d, 0) ensures W.TableOf(mem, root, d, 0) != s.at[p] {
      M.PathExists(s.at, root, mem, d, 0);
      assert T.Alone(s.at, p);
    }
  }

  lemma PageWritten(s: T.Tabs, ents: map<T.Frame, seq<T.Frame>>, frames: set<T.Frame>, root: T.Frame, mem: W.Memory,
                    begin: int, es: seq<W.Entry>, v: int)
    requires T.SoundTables(s, ents, frames, root) && M.Ready(s.at, root, MemOf(ents)) && W.Tables(mem)
    requires W.Wrote(MemOf(ents), mem, root, begin, es) && 0 <= v < W.PAGES && M.LeafOf(v) in s.at
    ensures EntryOf(s.at, EntsOf(ents, mem), v) == if begin <= v < begin + |es| then FrameOf(es[v - begin])
            else EntryOf(s.at, ents, v)
  {
    var f, k := s.at[M.LeafOf(v)], v % 512;
    assert MemOf(ents)(f) == Ptes(ents[f]);
    LeafWritten(s.at, root, MemOf(ents), mem, begin, es, v);
    assert EntsOf(ents, mem)[f][k] == FrameOf(mem(f)[k]);
    assert FrameOf(Pte(ents[f][k])) == ents[f][k];
  }

  lemma LeafWritten(at: map<T.Place, T.Frame>, root: T.Frame, mem0: W.Memory, mem: W.Memory, begin: int,
                    es: seq<W.Entry>, v: int)
    requires M.Ready(at, root, mem0) && W.Tables(mem) && W.Wrote(mem0, mem, root, begin, es) && 0 <= v < W.PAGES &&
             M.LeafOf(v) in at
    ensures var f, k := at[M.LeafOf(v)], v % 512; mem(f)[k] == if begin <= v < begin + |es| then es[v - begin]
            else mem0(f)[k]
  {
    var d := W.DigitsOf(v);
    LeafPath(at, root, mem0, v);
    assert W.Open(mem, root, d, 0);
    assert W.EntryAt(mem, root, d) == if begin <= W.Linear(d) < begin + |es| then es[W.Linear(d) - begin]
           else W.EntryAt(mem0, root, d);
  }

  lemma LeafPath(at: map<T.Place, T.Frame>, root: T.Frame, mem: W.Memory, v: int)
    requires M.Ready(at, root, mem) && 0 <= v < W.PAGES && M.LeafOf(v) in at
    ensures var d := W.DigitsOf(v);
            && W.Digits(d) && W.Linear(d) == v && d[0] == v % 512
            && W.Open(mem, root, d, 0) && W.TableOf(mem, root, d, 0) == at[M.LeafOf(v)]
  {
    W.LinearDigits(v);
    var d := W.DigitsOf(v);
    M.PathExists(at, root, mem, d, 0);
    M.NumberUnique(d);
  }

  /** The entries of a range of pages. */
  ghost function Held(at: map<T.Place, T.Frame>, ents: map<T.Frame, seq<T.Frame>>, pb: int,
                      count: nat): (r: seq<T.Frame>)
    ensures |r| == count
  {
    seq(count, j requires 0 <= j < count => EntryOf(at, ents, pb + j))
  }

  /** The pages from `pb` on hold the entries `es`, and every other page holds what it held. */
  ghost predicate Stored(at: map<T.Place, T.Frame>, ents: map<T.Frame, seq<T.Frame>>, ents': map<T.Frame,
                         seq<T.Frame>>, pb: int, es: seq<T.Frame>) {
    forall v {:trigger EntryOf(at, ents', v)} :: 0 <= v < W.PAGES && M.LeafOf(v) in at ==>
      EntryOf(at, ents', v) == if pb <= v < pb + |es| then es[v - pb] else EntryOf(at, ents, v)
  }

  function Zeroes(count: nat): (r: seq<T.Frame>)
    ensures |r| == count
  {
    seq(count, _ => 0)
  }

  /** Each of the entries has given back one use of its page; a page is freed with its last use. */
  ghost predicate Gave(refs: T.Frame -> int, refs': T.Frame -> int, freed: multiset<T.Frame>,
                       freed': multiset<T.Frame>, es: seq<T.Frame>) {
    forall look {:trigger Inside(WalkPart, look)} :: Inside(WalkPart, look) ==>
        W.GivingBack(refs, refs', freed, freed', Ptes(es))
  }

  lemma HeldRow(at: map<T.Place, T.Frame>, ents: map<T.Frame, seq<T.Frame>>, root: T.Frame, pb: int, count: nat,
                refs: T.Frame -> int, refs': T.Frame -> int, freed: multiset<T.Frame>, freed': multiset<T.Frame>)
    requires M.Ready(at, root, MemOf(ents)) && W.Fits(pb, count) && M.Walks(at, pb, count)
    requires forall x {:trigger at[x]} :: x in at ==> at[x] in ents && |ents[at[x]]| == W.PT_SIZE
    requires W.GivingBack(refs, refs', freed, freed', W.EntriesOf(MemOf(ents), root, pb, count))
    ensures Gave(refs, refs', freed, freed', Held(at, ents, pb, count))
  {
    var row, held := W.EntriesOf(MemOf(ents), root, pb, count), Ptes(Held(at, ents, pb, count));
    forall j | 0 <= j < count ensures row[j] == held[j] {
      assert M.LeafOf(pb + j) in at;
      RowAt(at, ents, MemOf(ents), root, pb, count, j);
    }
    assert row == held;
  }

  lemma RowAt(at: map<T.Place, T.Frame>, ents: map<T.Frame, seq<T.Frame>>, mem: W.Memory, root: T.Frame, pb: int,
              count: nat, j: int)
    requires M.Ready(at, root, mem) && mem == MemOf(ents) && 0 <= pb && pb + count <= W.PAGES && 0 <= j < count
    requires M.LeafOf(pb + j) in at
    requires at[M.LeafOf(pb + j)] in ents && |ents[at[M.LeafOf(pb + j)]]| == W.PT_SIZE
    ensures W.EntriesOf(mem, root, pb, count)[j] == Ptes(Held(at, ents, pb, count))[j]
  {
    HeldAt(at, ents, root, pb + j);
    RowJoin(at, ents, mem, root, pb, count, j);
  }

  lemma RowJoin(at: map<T.Place, T.Frame>, ents: map<T.Frame, seq<T.Frame>>, mem: W.Memory, root: T.Frame, pb: int,
                count: nat, j: int)
    requires W.Tables(mem) && 0 <= pb && pb + count <= W.PAGES && 0 <= j < count && W.Digits(W.DigitsOf(pb + j))
    requires W.EntryAt(mem, root, W.DigitsOf(pb + j)) == Pte(EntryOf(at, ents, pb + j))
    ensures W.EntriesOf(mem, root, pb, count)[j] == Ptes(Held(at, ents, pb, count))[j]
  {
    HeldEntry(at, ents, pb, count, j);
    W.EntriesAt(mem, root, pb, count, j);
  }

  lemma HeldEntry(at: map<T.Place, T.Frame>, ents: map<T.Frame, seq<T.Frame>>, pb: int, count: nat, j: int)
    requires 0 <= j < count
    ensures Ptes(Held(at, ents, pb, count))[j] == Pte(EntryOf(at, ents, pb + j))
  {
  }

  lemma HeldAt(at: map<T.Place, T.Frame>, ents: map<T.Frame, seq<T.Frame>>, root: T.Frame, v: int)
    requires M.Ready(at, root, MemOf(ents)) && 0 <= v < W.PAGES && M.LeafOf(v) in at
    requires var f := at[M.LeafOf(v)]; f in ents && |ents[f]| == W.PT_SIZE
    ensures W.Digits(W.DigitsOf(v)) && W.EntryAt(MemOf(ents), root, W.DigitsOf(v)) == Pte(EntryOf(at, ents, v))
  {
    LeafPath(at, root, MemOf(ents), v);
    var f := at[M.LeafOf(v)];
    assert MemOf(ents)(f) == Ptes(ents[f]);
  }

  /** The entries of the pages of [pb, pe) are gone and the others are as they were. */
  ghost predicate Cleared(at: map<T.Place, T.Frame>, ents: map<T.Frame, seq<T.Frame>>,
                          at': map<T.Place, T.Frame>, ents': map<T.Frame, seq<T.Frame>>, pb: int, pe: int) {
    forall v {:trigger EntryOf(at', ents', v)} :: 0 <= v < W.PAGES && M.LeafOf(v) in at' ==>
      EntryOf(at', ents', v) == if pb <= v < pe then 0 else EntryOf(at, ents, v)
  }

  lemma StillCleared(s: T.Tabs, e0: map<T.Frame, seq<T.Frame>>, e1: map<T.Frame, seq<T.Frame>>,
                     s': T.Tabs, e2: map<T.Frame, seq<T.Frame>>, d: T.Loss, pb: int, n: nat)
    requires Stored(s.at, e0, e1, pb, Zeroes(n)) && T.Shrunk(s, s', d) && T.Leaves(s.at, e1, s'.at, e2)
    requires forall x {:trigger s.at[x]} :: x in s.at ==> s.at[x] in e1
    ensures Cleared(s.at, e0, s'.at, e2, pb, pb + n)
  {
    forall v | 0 <= v < W.PAGES && M.LeafOf(v) in s'.at
      ensures EntryOf(s'.at, e2, v) == if pb <= v < pb + n then 0 else EntryOf(s.at, e0, v)
    {
      var x := M.LeafOf(v);
      assert s'.at[x] == s.at[x] && e2[s'.at[x]] == e1[s.at[x]];
      assert EntryOf(s'.at, e2, v) == EntryOf(s.at, e1, v);
    }
  }

  /** An area that is just the range is all that is gone. */
  ghost predicate Lost(area: map<R.Node, V.Area>, area': map<R.Node, V.Area>, b: int, e: int) {
    forall n {:trigger area[n]} :: n in area && area[n].begin == b && area[n].end == e ==> area' == area - {n}
  }

  /** Nothing is mapped in the span of the table of level 3 around a page: 512^3 pages. */
  ghost predicate Desert(area: map<R.Node, V.Area>, p: int) {
    var n := T.Slot(3, p);
    forall v {:trigger CountOf(area)(v)} :: T.Start(3, n) <= v < T.Start(3, n + 1) ==> CountOf(area)(v) == 0
  }

  /** Every whole page of the range is mapped, and the end is at a page or far from anything mapped. */
  ghost predicate Tidy(area: map<R.Node, V.Area>, begin: nat, end: nat) {
    && (forall v {:trigger CountOf(area)(v)} :: begin / 4096 <= v < end / 4096 ==> CountOf(area)(v) == 1)
    && (end % 4096 == 0 || Desert(area, end / 4096))
  }

  /** An end inside a page leaves areas of whole pages exactly when that page was not mapped. */
  lemma PagedAfter(area: map<R.Node, V.Area>, area': map<R.Node, V.Area>, begin: nat, end: nat)
    requires Paged(area) && V.Apart(area) && V.Apart(area') && Painted(area, area', begin, end, None)
    requires V.Bounded(area, area', begin, end) && begin < end <= 4096 * USER && begin % 4096 == 0
    ensures Paged(area') <==> end % 4096 == 0 || CountOf(area)(end / 4096) == 0
  {
    PagedWhole(area);
    if end % 4096 == 0 || CountOf(area)(end / 4096) == 0 {
      forall n | n in area' ensures WholeArea(area'[n]) { StillWhole(area, area', begin, end, n); }
    } else if Paged(area') {
      PagedWhole(area');
      CutPageWise(area, area', begin / 4096, end);
    }
  }

  lemma StillWhole(area: map<R.Node, V.Area>, area': map<R.Node, V.Area>, begin: nat, end: nat, n: R.Node)
    requires Paged(area) && PageWise(area) && V.Apart(area') && Painted(area, area', begin, end, None) && n in area'
    requires V.Bounded(area, area', begin, end) && begin < end <= 4096 * USER && begin % 4096 == 0
    requires end % 4096 == 0 || CountOf(area)(end / 4096) == 0
    ensures WholeArea(area'[n])
  {
    var x := area'[n];
    assert WholeAt(area, end);
    assert V.Begins(area, x.begin, end) && V.Ends(area, x.end, begin);
    if x.begin == end { V.PermUnique(area', n, end); }
  }

  /** A table of level 3 exists exactly when something in its span is mapped. */
  lemma DesertExactly(s: T.Tabs, frames: set<T.Frame>, area: map<R.Node, V.Area>, p: int)
    requires T.Right(s, frames, T.Everywhere(CountOf(area)))
    ensures Desert(area, p) <==> T.Place(3, T.Slot(3, p)) !in s.at
    ensures Desert(area, p) ==> CountOf(area)(p) == 0
  {
    var c, x := T.Everywhere(CountOf(area)), T.Place(3, T.Slot(3, p));
    T.SlotBounds(3, p);
    T.EmptyExactly(s, frames, c, x);
    assert forall v {:trigger CountOf(area)(v)} {:trigger c(x.level, v)} :: c(x.level, v) == CountOf(area)(v);
  }

  /** A page with a table of level 1 has one of level 3. */
  lemma LeafAbove(at: map<T.Place, T.Frame>, v: int)
    requires T.Closed(at) && M.LeafOf(v) in at
    ensures T.Place(3, T.Slot(3, v)) in at
  {
    var x := M.LeafOf(v);
    assert T.HangsAt(at, x) && T.HangsAt(at, T.Parent(x));
    assert T.Slot(3, v) == T.Slot(2, v) / 512 && T.Slot(2, v) == T.Slot(1, v) / 512 &&
           T.Slot(1, v) == T.Slot(0, v) / 512;
  }

  lemma TidyExactly(s: T.Tabs, frames: set<T.Frame>, area: map<R.Node, V.Area>, begin: nat, end: nat)
    requires T.Closed(s.at) && T.Right(s, frames, T.Everywhere(CountOf(area)))
    requires begin < end <= 4096 * USER && begin % 4096 == 0 && M.Walks(s.at, begin / 4096, (end - begin) / 4096)
    ensures Tidy(area, begin, end) <==>
              && T.NoHole(s.at, CountOf(area), begin / 4096, PageUp(end))
              && (end % 4096 == 0 || CountOf(area)(end / 4096) == 0)
  {
    var pb, p, count := begin / 4096, end / 4096, CountOf(area);
    assert p == pb + (end - begin) / 4096;
    forall v | pb <= v < p ensures T.Place(3, T.Slot(3, v)) in s.at { LeafAbove(s.at, v); }
    assert (forall v {:trigger count(v)} :: pb <= v < p ==> count(v) == 1) <==> T.NoHole(s.at, count, pb, p);
    if end % 4096 != 0 {
      DesertExactly(s, frames, area, p);
      assert T.NoHole(s.at, count, pb, p + 1) <==>
             T.NoHole(s.at, count, pb, p) && (count(p) == 1 || T.Place(3, T.Slot(3, p)) !in s.at);
    }
  }

  lemma NoneCovered(area: map<R.Node, V.Area>, b: int, e: int)
    requires V.Covered(area, b, e) == {}
    ensures forall a {:trigger V.PermAt(area, a)} :: b <= a < e ==> V.PermAt(area, a) == None
  {
    forall a | b <= a < e ensures V.PermAt(area, a) == None { assert a !in V.Covered(area, b, e); }
  }

  /** Equal permissions leave one set of tables, if no frame was moved. */
  lemma SameAreas(s: T.Tabs, s': T.Tabs, frames: set<T.Frame>, mid: map<T.Place, T.Frame>, area: map<R.Node, V.Area>,
                  area': map<R.Node, V.Area>)
    requires T.Right(s, frames, T.Everywhere(CountOf(area))) && T.Right(s', frames, T.Everywhere(CountOf(area')))
    requires forall a {:trigger V.PermAt(area', a)} :: V.PermAt(area', a) == V.PermAt(area, a)
    requires T.Extends(s.at, mid) && T.Extends(s'.at, mid)
    ensures s'.at == s.at
  {
    var c, c' := T.Everywhere(CountOf(area)), T.Everywhere(CountOf(area'));
    forall l, n ensures T.Load(c', l, n) == T.Load(c, l, n) {
      T.SumBumped(c, c', l, 0, 0, 0, T.Start(l, n), T.Start(l, n + 1));
    }
    assert forall l, n {:trigger T.Load(c, l, n)} :: T.Load(c', l, n) == T.Load(c, l, n);
    T.Restored(s.at, mid, s'.at, c);
  }

  /** How a call ends: DBG_ASSERT never returns when its condition fails. */
  datatype Ending = Returns | Hangs

  class Space {
    const vmas: V.Mm
    const tables: T.PageTables
    var refs: T.Frame -> int
    var freed: multiset<T.Frame>

    /** The areas are in order. */
    ghost predicate Ordered()
      reads vmas, vmas.tree, vmas.tree.nodes
    {
      forall look {:trigger Inside(AreasPart, look)} :: Inside(AreasPart, look) ==> vmas.Valid()
    }

    /** Every page has page tables exactly when it is mapped, with the counts that go with that. */
    ghost predicate Valid()
      reads this, tables, vmas, vmas.tree, vmas.tree.nodes
    {
      Ordered() && Paged(vmas.area) && tables.InStep(CountOf(vmas.area))
    }

    constructor (top: T.Frame, free: seq<T.Frame>)
      requires top != 0 && top !in free && 0 !in free && NoDup(free)
      ensures Valid() && vmas.area == map[] && vmas.tree.nodes == {} && fresh(vmas) && fresh(vmas.tree) && fresh(tables)
      ensures tables.at == map[T.Place(4, 0) := top] && tables.avail == free
    {
      vmas := new V.Mm();
      tables := new T.PageTables(top, free);
      refs, freed := _ => 0, multiset{};
      new;
      tables.KeptSame(T.Everywhere(_ => 0), T.Everywhere(CountOf(vmas.area)));
    }

    // ----- __mmap -----

    /** The link for the range, if nothing is in the way. */
    ghost predicate Free(b: int, e: int, p: R.Node?, s: R.Side)
      reads vmas, vmas.tree, vmas.tree.nodes
    {
      && vmas.Fits(p, s, b, e) && (forall n :: n in vmas.area ==> !vmas.area[n].Overlaps(b, e))
      && forall v {:trigger Mapped(vmas.area, 4096 * v)} :: b <= 4096 * v < e ==> !Mapped(vmas.area, 4096 * v)
    }

    /** The same, as a whole. */
    ghost predicate Open(b: int, e: int, p: R.Node?, s: R.Side)
      reads vmas, vmas.tree, vmas.tree.nodes
    {
      forall look {:trigger Inside(AreasPart, look)} :: Inside(AreasPart, look) ==> Free(b, e, p, s)
    }

    method Probe(b: int, e: int) returns (busy: bool, p: R.Node?, s: R.Side)
      requires Ordered()
      ensures busy <==> Taken(vmas.area, b, e)
      ensures b < e ==> (busy <==> V.Covered(vmas.area, b, e) != {})
      ensures !busy && b < e ==> Open(b, e, p, s)
    {
      assert Inside(AreasPart, true);
      vmas.ValidApart();
      var vma;
      vma, p, s := vmas.Lookup(b, e);
      busy := vma != null;
      if busy { assert Hits(vmas.area, vma, b, e); }
      if b < e {
        V.FreeRange(vmas.area, b, e);
        if !busy { FreePages(vmas.area, b, e); }
      }
    }

    /** Nothing has changed: neither the areas nor any table, entry or count. */
    twostate predicate Untouched()
      reads this, tables, vmas
    {
      vmas.area == old(vmas.area) && T.Alike(old(tables.Tab()), old(tables.ents), tables.Tab(), tables.ents)
    }

    /** The range has its permission and its page tables. */
    twostate predicate Entered(b: int, e: int, perm: int)
      reads this, tables, vmas
    {
      && Painted(old(vmas.area), vmas.area, b, e, Some(perm))
      && T.Extended(old(tables.Tab()), old(tables.ents), tables.Tab(), tables.ents, b / 4096, e / 4096)
    }

    /**
     __mmap, for the range [b, e) of whole pages around [begin, end): busy exactly when an area overlaps it,
     which for a range that is not empty means that one of its addresses is mapped; stuck in an assertion
     exactly when it is free and empty; out of memory exactly when it is free, not empty, and the frames are
     too few for the missing tables or there is no memory for the vma. In all these cases nothing has changed;
     otherwise the range gets its permission and its page tables.
     */
    method Mmap(begin: nat, end: nat, perm: int, memory: bool) returns (rc: V.Status, ghost b: int, ghost e: int)
      requires Valid() && end <= 4096 * USER
      modifies tables, vmas`area, vmas.tree, vmas.tree.nodes
      ensures Valid() && fresh(vmas.tree.nodes - old(vmas.tree.nodes))
      ensures Rounded(begin, end, b, e)
      ensures rc == V.Busy <==> Taken(old(vmas.area), b, e)
      ensures b < e ==> (rc == V.Busy <==> V.Covered(old(vmas.area), b, e) != {})
      ensures rc == V.Stuck <==> rc != V.Busy && e <= b
      ensures rc == V.NoMemory <==> rc != V.Busy && b < e && !(memory && old(tables.Affords(b / 4096, e / 4096)))
      ensures rc == V.Ok ==> Entered(b, e, perm)
      ensures rc == V.Ok ==> forall a :: begin <= a < end ==> V.PermAt(vmas.area, a) == Some(perm)
      ensures rc != V.Ok ==> Untouched()
    {
      var from, limit := V.AlignDown(begin), V.AlignUp(end);
      b, e := from, limit;
      var busy, p, s := Probe(from, limit);
      if busy || limit <= from {
        tables.SelfSame(CountOf(vmas.area));
        rc := if busy then V.Busy else V.Stuck;
        return;
      }
      var ok := Commit(from, limit, perm, memory, p, s);
      rc := if ok then V.Ok else V.NoMemory;
    }

    /** Page tables first, then the area; both or neither. */
    method Commit(b: int, e: int, perm: int, memory: bool, p: R.Node?, s: R.Side) returns (ok: bool)
      requires Valid() && 0 <= b < e <= 4096 * USER && b % 4096 == e % 4096 == 0 && Open(b, e, p, s)
      modifies tables, vmas`area, vmas.tree, vmas.tree.nodes
      ensures Valid() && fresh(vmas.tree.nodes - old(vmas.tree.nodes))
      ensures ok <==> memory && old(tables.Affords(b / 4096, e / 4096))
      ensures ok ==> Entered(b, e, perm)
      ensures !ok ==> Untouched()
    {
      ok := tables.PopulateFor(b / 4096, e / 4096, memory, CountOf(vmas.area));
      if ok { Enter(b, e, perm, p, s); }
    }

    /** The area for a range whose page tables have just been made. */
    method Enter(b: int, e: int, perm: int, p: R.Node?, s: R.Side)
      requires Ordered() && Paged(vmas.area) && 0 <= b < e <= 4096 * USER && b % 4096 == e % 4096 == 0 &&
               Open(b, e, p, s)
      requires tables.InStep(T.Plus(CountOf(vmas.area), b / 4096, e / 4096, 1))
      modifies vmas`area, vmas.tree, vmas.tree.nodes
      ensures Valid() && fresh(vmas.tree.nodes - old(vmas.tree.nodes)) &&
              Painted(old(vmas.area), vmas.area, b, e, Some(perm))
    {
      ghost var area := vmas.area;
      EnterArea(b, e, perm, p, s);
      tables.KeptSame(T.Everywhere(T.Plus(CountOf(area), b / 4096, e / 4096, 1)), T.Everywhere(CountOf(vmas.area)));
    }

    method EnterArea(b: int, e: int, perm: int, p: R.Node?, s: R.Side)
      requires Ordered() && Paged(vmas.area) && 0 <= b < e <= 4096 * USER && b % 4096 == e % 4096 == 0 &&
               Open(b, e, p, s)
      modifies vmas`area, vmas.tree, vmas.tree.nodes
      ensures Ordered() && Paged(vmas.area) && fresh(vmas.tree.nodes - old(vmas.tree.nodes)) &&
              Painted(old(vmas.area), vmas.area, b, e, Some(perm))
      ensures T.SameCounts(T.Everywhere(T.Plus(CountOf(old(vmas.area)), b / 4096, e / 4096, 1)),
              T.Everywhere(CountOf(vmas.area)))
    {
      assert Inside(AreasPart, true);
      var node := vmas.MapFree(b, e, perm, p, s);
      PlusCounts(old(vmas.area), vmas.area, b / 4096, e / 4096, perm);
    }

    // ----- __mmap_pages and __munmap_pages on these tables -----

    /** What a walk over the pages needs of the tables, and when it gets by without tripping. */
    lemma WalkReady(pb: int, count: nat)
      requires tables.Sound() && W.Fits(pb, count)
      ensures tables.root != 0 && M.Ready(tables.at, tables.root, MemOf(tables.ents))
      ensures W.Tree(MemOf(tables.ents), tables.root)
      ensures W.Clear(MemOf(tables.ents), tables.root, pb, count) <==> M.Walks(tables.at, pb, count)
    {
      MemReady(tables.Tab(), tables.ents, tables.frames, tables.root);
      M.TablesFormTree(tables.at, tables.root, MemOf(tables.ents));
      M.ClearExactly(tables.at, tables.root, MemOf(tables.ents), pb, count);
    }

    /** The entries of the pages have been replaced by `es`. */
    twostate predicate Swept(pb: int, es: seq<T.Frame>)
      reads tables
    {
      forall look {:trigger Inside(WalkPart, look)} :: Inside(WalkPart, look) ==>
        tables.Sound() && Stored(tables.at, old(tables.ents), tables.ents, pb, es)
    }

    method UnmapEntries(pb: int, count: nat) returns (ok: bool)
      requires tables.Sound() && W.Fits(pb, count)
      modifies this`refs, this`freed, tables`ents
      ensures ok <==> M.Walks(tables.at, pb, count)
      ensures ok ==> Swept(pb, Zeroes(count))
      ensures ok ==> Gave(old(refs), refs, old(freed), freed, Held(tables.at, old(tables.ents), pb, count))
    {
      WalkReady(pb, count);
      var walk := new W.AddressSpace(tables.root, MemOf(tables.ents), refs, freed);
      ok := walk.UnmapPages(pb, count);
      if ok {
        HeldRow(tables.at, tables.ents, tables.root, pb, count, refs, walk.refs, freed, walk.freed);
        refs, freed := walk.refs, walk.freed;
        Replace(walk.mem, pb, W.Absent(count), Zeroes(count));
      }
    }

    /** The tables take over what a walk has written. */
    method Replace(mem: W.Memory, ghost pb: int, ghost es: seq<W.Entry>, ghost fs: seq<T.Frame>)
      requires tables.Sound() && W.Fits(pb, |es|) && W.Tables(mem) && W.Tables(MemOf(tables.ents))
      requires W.Wrote(MemOf(tables.ents), mem, tables.root, pb, es)
      requires |fs| == |es| && forall j :: 0 <= j < |es| ==> FrameOf(es[j]) == fs[j]
      modifies tables`ents
      ensures Swept(pb, fs)
    {
      WalkedTables(tables.Tab(), tables.ents, tables.frames, tables.root, mem, pb, es);
      tables.ents := EntsOf(tables.ents, mem);
    }

    method MapEntries(pb: int, pages: seq<T.Frame>) returns (ok: bool)
      requires tables.Sound() && W.Fits(pb, |pages|) && 0 !in pages
      modifies this`refs, tables`ents
      ensures ok <==> M.Walks(tables.at, pb, |pages|)
      ensures ok ==> Swept(pb, pages) && W.Counting(old(refs), refs, pages)
    {
      WalkReady(pb, |pages|);
      var walk := new W.AddressSpace(tables.root, MemOf(tables.ents), refs, freed);
      ok := walk.MapPages(pb, pages, 0);
      if ok {
        refs := walk.refs;
        Replace(walk.mem, pb, W.Mappings(pages, 0), pages);
      }
    }

    /**
     __mmap_pages: the pages from `pb` on hold these frames; it hangs exactly when one of them has no table of
     level 0.
     */
    method MmapPages(pb: int, pages: seq<T.Frame>) returns (r: Ending)
      requires Valid() && W.Fits(pb, |pages|) && 0 !in pages
      modifies this`refs, tables`ents
      ensures r == Returns <==> M.Walks(tables.at, pb, |pages|)
      ensures r == Returns ==> Valid() && Swept(pb, pages) && W.Counting(old(refs), refs, pages)
    {
      tables.StepSound(CountOf(vmas.area));
      var ok := MapEntries(pb, pages);
      if ok {
        assert tables.Sound() by { assert Inside(WalkPart, true); }
        tables.StillInStep(old(tables.Tab()), CountOf(vmas.area));
      }
      r := if ok then Returns else Hangs;
    }

    // ----- __munmap -----

    /** The loop over the areas: exactly the range is unmapped. */
    method Forget(b: int, e: int)
      requires Ordered() && b < e
      modifies vmas`area, vmas.tree, vmas.tree.nodes
      ensures Ordered() && fresh(vmas.tree.nodes - old(vmas.tree.nodes)) && V.Apart(vmas.area)
      ensures Painted(old(vmas.area), vmas.area, b, e, None) && V.Bounded(old(vmas.area), vmas.area, b, e)
      ensures Lost(old(vmas.area), vmas.area, b, e)
    {
      assert Inside(AreasPart, true);
      vmas.Munmap(b, e);
      vmas.ValidApart();
    }

    /** pt_release_range and the loop over the areas. */
    method Take(begin: nat, end: nat)
      requires Ordered() && tables.Sound() && begin < end <= 4096 * USER && begin % 4096 == 0
      modifies tables, vmas`area, vmas.tree, vmas.tree.nodes
      ensures Ordered() && tables.Sound() && fresh(vmas.tree.nodes - old(vmas.tree.nodes)) && V.Apart(vmas.area)
      ensures Painted(old(vmas.area), vmas.area, begin, end, None) && V.Bounded(old(vmas.area), vmas.area, begin, end)
      ensures Lost(old(vmas.area), vmas.area, begin, end)
      ensures T.Shrunk(old(tables.Tab()), tables.Tab(), T.Less(1, 4, begin / 4096, PageUp(end)))
      ensures T.Leaves(old(tables.at), old(tables.ents), tables.at, tables.ents)
    {
      tables.ReleaseRange(begin / 4096, PageUp(end));
      Forget(begin, end);
    }

    /**
     __munmap on byte addresses. It hangs exactly on an empty range, a begin inside a page, or a page
     without a table of level 0. Otherwise exactly the addresses of the range lose their permission, every
     table counts the pages of the range in its span less, rounded up to whole pages, and the entries of
     the pages, rounded down, are gone with their uses. Areas and page tables are in step afterwards exactly
     when every page was mapped and the end was at a page, or far from anything mapped.
     */
    method Munmap(begin: nat, end: nat) returns (r: Ending)
      requires Valid() && end <= 4096 * USER
      modifies this`refs, this`freed, tables, vmas`area, vmas.tree, vmas.tree.nodes
      ensures r == Hangs <==>
                end <= begin || begin % 4096 != 0 || !M.Walks(old(tables.at), begin / 4096, (end - begin) / 4096)
      ensures r == Returns ==> Painted(old(vmas.area), vmas.area, begin, end, None)
      ensures r == Returns ==> T.Shrunk(old(tables.Tab()), tables.Tab(), T.Less(1, 4, begin / 4096, PageUp(end)))
      ensures r == Returns ==> Cleared(old(tables.at), old(tables.ents), tables.at, tables.ents, begin / 4096,
              end / 4096)
      ensures r == Returns ==>
                Gave(old(refs), refs, old(freed), freed,
                    Held(old(tables.at), old(tables.ents), begin / 4096, (end - begin) / 4096))
      ensures r == Returns ==> (Valid() <==> Tidy(old(vmas.area), begin, end))
      ensures r == Returns ==> Lost(old(vmas.area), vmas.area, begin, end)
      ensures fresh(vmas.tree.nodes - old(vmas.tree.nodes))
    {
      if end <= begin || begin % 4096 != 0 { return Hangs; }
      var pb, n := begin / 4096, (end - begin) / 4096;
      ghost var s, e0 := tables.Tab(), tables.ents;
      tables.StepSound(CountOf(vmas.area));
      var ok := UnmapEntries(pb, n);
      if !ok { return Hangs; }
      assert tables.Sound() && Stored(s.at, e0, tables.ents, pb, Zeroes(n)) by { assert Inside(WalkPart, true); }
      Strip(begin, end, s, e0);
      r := Returns;
    }

    /** What __munmap does after the entries of the pages are gone. */
    method Strip(begin: nat, end: nat, ghost s: T.Tabs, ghost e0: map<T.Frame, seq<T.Frame>>)
      requires Ordered() && Paged(vmas.area) && tables.Sound() && begin < end <= 4096 * USER && begin % 4096 == 0
      requires s == tables.Tab() && T.Right(s, tables.frames, T.Everywhere(CountOf(vmas.area)))
      requires Stored(s.at, e0, tables.ents, begin / 4096, Zeroes((end - begin) / 4096))
      requires M.Walks(s.at, begin / 4096, (end - begin) / 4096)
      modifies tables, vmas`area, vmas.tree, vmas.tree.nodes
      ensures Painted(old(vmas.area), vmas.area, begin, end, None)
      ensures T.Shrunk(s, tables.Tab(), T.Less(1, 4, begin / 4096, PageUp(end)))
      ensures Cleared(s.at, e0, tables.at, tables.ents, begin / 4096, end / 4096)
      ensures (Valid() <==> Tidy(old(vmas.area), begin, end)) && Lost(old(vmas.area), vmas.area, begin, end)
      ensures fresh(vmas.tree.nodes - old(vmas.tree.nodes))
    {
      ghost var pb, n, e1 := begin / 4096, (end - begin) / 4096, tables.ents;
      AreasApart();
      Take(begin, end);
      StillCleared(s, e0, e1, tables.Tab(), tables.ents, T.Less(1, 4, pb, PageUp(end)), pb, n);
      TidyAfter(s, old(vmas.area), begin, end);
    }

    /** Whether areas and page tables are in step after they have lost the range. */
    lemma TidyAfter(s: T.Tabs, area: map<R.Node, V.Area>, begin: nat, end: nat)
      requires Ordered() && tables.Sound() && begin < end <= 4096 * USER && begin % 4096 == 0 && Paged(area)
      requires V.Apart(area) && V.Apart(vmas.area) && V.Bounded(area, vmas.area, begin, end)
      requires T.Closed(s.at) && T.Right(s, tables.frames, T.Everywhere(CountOf(area)))
      requires T.Shrunk(s, tables.Tab(), T.Less(1, 4, begin / 4096, PageUp(end))) &&
               Painted(area, vmas.area, begin, end, None)
      requires M.Walks(s.at, begin / 4096, (end - begin) / 4096)
      ensures Valid() <==> Tidy(area, begin, end)
    {
      var pb, pe := begin / 4096, PageUp(end);
      var left, asked := T.Everywhere(T.Taken(CountOf(area), pb, pe)), T.Everywhere(CountOf(vmas.area));
      TakenCounts(area, vmas.area, pb, end, pe);
      tables.ReleaseInStep(s, CountOf(area), pb, pe);
      if tables.Kept(left) { tables.KeptSame(left, asked); }
      if tables.Kept(asked) { tables.KeptSame(asked, left); }
      PagedAfter(area, vmas.area, begin, end);
      TidyExactly(s, tables.frames, area, begin, end);
    }

    lemma AreasApart()
      requires Ordered()
      ensures V.Apart(vmas.area)
    {
      assert Inside(AreasPart, true);
      vmas.ValidApart();
    }

    /** A mapped page has a table of level 0. */
    lemma MappedLeaf(v: int)
      requires Valid() && CountOf(vmas.area)(v) == 1
      ensures M.LeafOf(v) in tables.at
    {
      assert Inside(TablesPart, true);
      T.SlotBounds(1, v);
      assert T.Slot(1, v) == v / 512;
      tables.PopulatedPresent(T.Everywhere(CountOf(vmas.area)), 1, v / 512, v);
    }

    /**
     The assertion on the level cannot fire in a range that is mapped, and such a range is unmapped without a
     trace.
     */
    lemma MappedWalks(begin: nat, end: nat)
      requires Valid() && begin < end <= 4096 * USER && begin % 4096 == end % 4096 == 0
      requires forall a :: begin <= a < end ==> Mapped(vmas.area, a)
      ensures M.Walks(tables.at, begin / 4096, (end - begin) / 4096) && Tidy(vmas.area, begin, end)
    {
      var pb, pe := begin / 4096, end / 4096;
      forall v | pb <= v < pe ensures M.LeafOf(v) in tables.at && CountOf(vmas.area)(v) == 1 {
        assert begin <= 4096 * v < end;
        MappedLeaf(v);
      }
    }

    /** Unmapping whole pages that are all mapped neither hangs nor loses step. */
    method UnmapMapped(b: nat, e: nat)
      requires Valid() && b < e <= 4096 * USER && b % 4096 == e % 4096 == 0 && forall a :: b <= a < e ==>
               Mapped(vmas.area, a)
      modifies this`refs, this`freed, tables, vmas`area, vmas.tree, vmas.tree.nodes
      ensures Valid() && Painted(old(vmas.area), vmas.area, b, e, None) && T.Extends(tables.at, old(tables.at))
      ensures fresh(vmas.tree.nodes - old(vmas.tree.nodes))
    {
      MappedWalks(b, e);
      var r := Munmap(b, e);
    }

    /** Unmapping a range that was free before it was mapped. */
    method UnmapBack(b: nat, e: nat, perm: int, ghost s: T.Tabs, ghost area: map<R.Node, V.Area>)
      requires Valid() && b < e <= 4096 * USER && b % 4096 == e % 4096 == 0 && V.Covered(area, b, e) == {}
      requires T.Right(s, tables.frames, T.Everywhere(CountOf(area))) && T.Extends(s.at, tables.at)
      requires Painted(area, vmas.area, b, e, Some(perm))
      modifies this`refs, this`freed, tables, vmas`area, vmas.tree, vmas.tree.nodes
      ensures Valid() && tables.at == s.at && fresh(vmas.tree.nodes - old(vmas.tree.nodes))
      ensures forall a {:trigger V.PermAt(vmas.area, a)} :: V.PermAt(vmas.area, a) == V.PermAt(area, a)
    {
      NoneCovered(area, b, e);
      UnmapMapped(b, e);
      tables.StepSound(CountOf(vmas.area));
      SameAreas(s, tables.Tab(), tables.frames, old(tables.at), area, vmas.area);
    }

    /** Mapping a range and unmapping it again restores every permission and every table. */
    method MapThenUnmap(begin: nat, end: nat, perm: int) returns (rc: V.Status, ghost b: int, ghost e: int)
      requires Valid() && end <= 4096 * USER
      modifies this, tables, vmas, vmas.tree, vmas.tree.nodes
      ensures Valid() && tables.at == old(tables.at) && fresh(vmas.tree.nodes - old(vmas.tree.nodes))
      ensures Rounded(begin, end, b, e)
      ensures rc == if Taken(old(vmas.area), b, e) then V.Busy else if e <= b then V.Stuck
                    else if old(tables.Affords(b / 4096, e / 4096)) then V.Ok else V.NoMemory
      ensures forall a {:trigger V.PermAt(vmas.area, a)} :: V.PermAt(vmas.area, a) == V.PermAt(old(vmas.area), a)
    {
      ghost var s, ents, area := tables.Tab(), tables.ents, vmas.area;
      tables.StepSound(CountOf(area));
      rc, b, e := Mmap(begin, end, perm, true);
      if rc == V.Ok {
        T.ExtendedTables(s, ents, tables.Tab(), tables.ents, b / 4096, e / 4096);
        var from, limit := V.AlignDown(begin), V.AlignUp(end);
        RoundedOnce(begin, end, b, e, from, limit);
        UnmapBack(from, limit, perm, s, area);
      } else {
        T.AlikeTables(s, ents, tables.Tab(), tables.ents);
      }
    }

    /** lookup_vma in a valid space: an area around the address, exactly when the address is mapped. */
    method LookupVma(addr: nat) returns (vma: R.Node?)
      requires Valid()
      ensures vma == null <==> !Mapped(vmas.area, addr)
      ensures vma != null ==> vma in vmas.area && vmas.area[vma].Has(addr)
    {
      assert Inside(AreasPart, true);
      vma := vmas.LookupVma(addr);
      vmas.ValidApart();
      PagedWhole(vmas.area);
      assert WholeAt(vmas.area, addr);
      if vma != null { OnePage(vmas.area[vma], addr - addr % 4096, addr); }
    }
  }

  /** [b, e) is [begin, end) with both ends moved outwards to pages. */
  ghost predicate Rounded(begin: int, end: int, b: int, e: int) {
    b % 4096 == 0 && e % 4096 == 0 && b <= begin < b + 4096 && end <= e < end + 4096
  }

  lemma RoundedOnce(begin: int, end: int, b: int, e: int, b': int, e': int)
    requires Rounded(begin, end, b, e) && Rounded(begin, end, b', e')
    ensures b' == b && e' == e
  {
  }

  /** The tables of the first pages are the first ones of each level. */
  lemma FirstTables(a: int, b: int)
    requires 0 <= a < b <= 512
    ensures T.Needed(4, a, b) == {T.Place(1, 0), T.Place(2, 0), T.Place(3, 0)}
  {
    forall x ensures x in T.Needed(4, a, b) <==> x in {T.Place(1, 0), T.Place(2, 0), T.Place(3, 0)} {
      SlotLow(x.level, a);
      SlotLow(x.level, b - 1);
    }
  }

  lemma {:induction false} SlotLow(l: int, v: int)
    requires 0 <= v < 512
    ensures l >= 1 ==> T.Slot(l, v) == 0
    decreases l
  {
    if l > 1 { SlotLow(l - 1, v); }
    if l == 1 { assert T.Slot(0, v) == v; }
  }

  /** Pages that are free and whose tables can be had are mapped. */
  method MapSome(s: Space, pb: nat, pe: nat)
    requires s.Valid() && pb < pe <= USER && s.tables.Affords(pb, pe)
    requires forall a {:trigger Mapped(s.vmas.area, a)} :: 4096 * pb <= a < 4096 * pe ==> !Mapped(s.vmas.area, a)
    modifies s.tables, s.vmas, s.vmas.tree, s.vmas.tree.nodes
    ensures s.Valid() && fresh(s.vmas.tree.nodes - old(s.vmas.tree.nodes))
    ensures Painted(old(s.vmas.area), s.vmas.area, 4096 * pb, 4096 * pe, Some(0))
    ensures T.Needed(4, pb, pe) <= s.tables.at.Keys
  {
    var b, e := 4096 * pb, 4096 * pe;
    assert b / 4096 == pb && e / 4096 == pe;
    NotCovered(s.vmas.area, b, e);
    var rc;
    ghost var from, limit;
    rc, from, limit := s.Mmap(b, e, 0, true);
    RoundedOnce(b, e, from, limit, b, e);
    assert rc == V.Ok;
    T.ExtendedTables(old(s.tables.Tab()), old(s.tables.ents), s.tables.Tab(), s.tables.ents, pb, pe);
  }

  lemma NotCovered(area: map<R.Node, V.Area>, b: int, e: int)
    requires forall a {:trigger Mapped(area, a)} :: b <= a < e ==> !Mapped(area, a)
    ensures V.Covered(area, b, e) == {}
  {
    if a :| a in V.Covered(area, b, e) { assert Mapped(area, a); }
  }

  /** Painting pages sets their counts. */
  lemma PaintCounts(area: map<R.Node, V.Area>, area': map<R.Node, V.Area>, pb: int, pe: int)
    requires Painted(area, area', 4096 * pb, 4096 * pe, Some(0))
    ensures forall v {:trigger CountOf(area')(v)} :: CountOf(area')(v) == if pb <= v < pe then 1 else CountOf(area)(v)
  {
    forall v ensures CountOf(area')(v) == if pb <= v < pe then 1 else CountOf(area)(v) {
      assert pb <= v < pe <==> 4096 * pb <= 4096 * v < 4096 * pe;
      assert V.PermAt(area', 4096 * v) == if 4096 * pb <= 4096 * v < 4096 * pe then Some(0)
             else V.PermAt(area, 4096 * v);
    }
  }

  /** A new address space whose first pages are mapped. */
  method FirstPages(n: nat) returns (s: Space)
    requires 1 <= n <= 2
    ensures fresh(s) && fresh(s.tables) && fresh(s.vmas) && fresh(s.vmas.tree) && fresh(s.vmas.tree.nodes) && s.Valid()
    ensures Painted(map[], s.vmas.area, 0, 4096 * n, Some(0)) && T.Needed(4, 0, n) <= s.tables.at.Keys
  {
    s := new Space(1, [2, 3, 4]);
    FirstTables(0, n);
    s.tables.AffordsIf(0, n, {T.Place(1, 0), T.Place(2, 0), T.Place(3, 0)});
    MapSome(s, 0, n);
  }

  /** Unmapping most of the first two pages when only page 0 and page `k` are mapped. */
  method UnmapTwo(s: Space, k: int, end: nat)
    requires s.Valid() && 1 <= k <= 2 && 4096 < end <= 8192
    requires forall v {:trigger CountOf(s.vmas.area)(v)} :: CountOf(s.vmas.area)(v) == if v == 0 || v == k then 1 else 0
    modifies s, s.tables, s.vmas, s.vmas.tree, s.vmas.tree.nodes
    ensures Painted(old(s.vmas.area), s.vmas.area, 0, end, None) && T.Place(1, 0) !in s.tables.at
  {
    ghost var t, count := s.tables.Tab(), CountOf(s.vmas.area);
    s.MappedLeaf(0);
    s.tables.StepSound(count);
    assert M.Walks(s.tables.at, 0, end / 4096) && PageUp(end) == 2;
    var r := s.Munmap(0, end);
    assert T.Shrunk(t, s.tables.Tab(), T.Less(1, 4, 0, 2));
    T.HoleFreesTable(t, s.tables.Tab(), s.tables.frames, count, k);
  }

  /** An end inside a page: the rest of the page stays mapped, and its page table is gone. */
  method StrandedPage() returns (s: Space)
    ensures Mapped(s.vmas.area, 5000) && M.LeafOf(1) !in s.tables.at
  {
    s := FirstPages(2);
    PaintCounts(map[], s.vmas.area, 0, 2);
    UnmapTwo(s, 1, 4097);
  }

  /** A hole in the range: page 2 stays mapped, and its page table is gone. */
  method HoleUnmapped() returns (s: Space)
    ensures Mapped(s.vmas.area, 8192) && M.LeafOf(2) !in s.tables.at
  {
    s := FirstPages(1);
    FirstTables(0, 1);
    FirstTables(2, 3);
    s.tables.AffordsIf(2, 3, {});
    PaintCounts(map[], s.vmas.area, 0, 1);
    ghost var area := s.vmas.area;
    MapSome(s, 2, 3);
    PaintCounts(area, s.vmas.area, 2, 3);
    UnmapTwo(s, 2, 8192);
  }

  /** The first page that begins at the address or after it. */
  function PageUp(a: nat): (r: nat)
    ensures 4096 * (r - 1) < a <= 4096 * r
  {
    (a + 4095) / 4096
  }
}
