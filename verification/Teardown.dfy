/**
 Releasing a whole address space (mm.c:374-384, 439-444): the areas are unmapped one after the other, with the
 next one looked up before each is erased. At the end no area, no table but the root and no entry is left.
 */
module Teardown {

  import opened Common
  import R = RbTree
  import V = Vma
  import T = PageTables
  import W = PageWalk
  import M = Mapped
  import S = Space

  type Tables = map<T.Place, T.Frame>
  type Entries = map<T.Frame, seq<T.Frame>>

  // ----- uses of pages by entries -----

  /** How many of the pages below `hi` map the frame `p`. */
  ghost function Uses(at: Tables, ents: Entries, p: T.Frame, hi: int): nat
    decreases hi, p
  {
    if hi <= 0 then 0 else Uses(at, ents, p, hi - 1) + if S.EntryOf(at, ents, hi - 1) == p then 1 else 0
  }

  /** Only pages that are mapped have entries. */
  ghost predicate Backed(at: Tables, ents: Entries, area: map<R.Node, V.Area>) {
    forall v {:trigger S.EntryOf(at, ents, v)} ::
      0 <= v < W.PAGES && S.EntryOf(at, ents, v) != 0 ==> S.CountOf(area)(v) == 1
  }

  /** The entries of the pages of [pb, pe) are gone and all others are as they were. */
  ghost predicate Emptied(at: Tables, ents: Entries, at': Tables, ents': Entries, pb: int, pe: int) {
    forall v {:trigger S.EntryOf(at', ents', v)} {:trigger S.EntryOf(at, ents, v)} :: 0 <= v < W.PAGES ==>
      S.EntryOf(at', ents', v) == if pb <= v < pe then 0 else S.EntryOf(at, ents, v)
  }

  lemma {:induction false} HeldUses(at: Tables, ents: Entries, p: T.Frame, pb: nat, n: nat)
    requires p != 0
    ensures W.Uses(S.Ptes(S.Held(at, ents, pb, n)), p) == Uses(at, ents, p, pb + n) - Uses(at, ents, p, pb)
  {
    if n > 0 {
      var es, x := S.Ptes(S.Held(at, ents, pb, n - 1)), S.EntryOf(at, ents, pb + n - 1);
      HeldUses(at, ents, p, pb, n - 1);
      assert S.Ptes(S.Held(at, ents, pb, n)) == es + [S.Pte(x)];
      W.UsesAppend(es, S.Pte(x), p);
    }
  }

  lemma {:induction false} EmptiedUses(at: Tables, ents: Entries, at': Tables, ents': Entries, p: T.Frame, pb: nat,
                                       pe: nat,
                                       hi: nat)
    requires Emptied(at, ents, at', ents', pb, pe) && pb <= pe && hi <= W.PAGES && p != 0
    ensures var lo, up := if hi < pb then hi else pb, if hi < pe then hi else pe;
            Uses(at', ents', p, hi) == Uses(at, ents, p, hi) - (Uses(at, ents, p, up) - Uses(at, ents, p, lo))
  {
    if hi > 0 { EmptiedUses(at, ents, at', ents', p, pb, pe, hi - 1); }
  }

  lemma {:induction false} NoUses(at: Tables, ents: Entries, p: T.Frame, hi: nat)
    requires p != 0 && hi <= W.PAGES && forall v {:trigger S.EntryOf(at, ents, v)} :: 0 <= v < W.PAGES ==>
             S.EntryOf(at, ents, v) == 0
    ensures Uses(at, ents, p, hi) == 0
  {
    if hi > 0 { NoUses(at, ents, p, hi - 1); }
  }

  /** Page uses as values: the counts, the pages freed so far, and the entries that use them. */
  datatype Account = Account(refs: T.Frame -> int, freed: multiset<T.Frame>, at: Tables, ents: Entries)

  /** The uses that entries have given up are given back, and a page is freed with its last use. */
  ghost predicate Settled(a: Account, z: Account) {
    forall p {:trigger a.refs(p)} {:trigger z.refs(p)} {:trigger z.freed[p]} :: p != 0 ==>
      && z.refs(p) == a.refs(p) - (Uses(a.at, a.ents, p, W.PAGES) - Uses(z.at, z.ents, p, W.PAGES)) <= a.refs(p)
      && z.freed[p] == a.freed[p] + if a.refs(p) > 0 >= z.refs(p) then 1 else 0
  }

  lemma SettledTwice(a: Account, y: Account, z: Account)
    requires Settled(a, y) && Settled(y, z)
    ensures Settled(a, z)
  {
  }

  lemma GaveSettled(a: Account, z: Account, pb: nat, n: nat)
    requires S.Gave(a.refs, z.refs, a.freed, z.freed, S.Held(a.at, a.ents, pb, n)) && pb + n <= W.PAGES
    requires Emptied(a.at, a.ents, z.at, z.ents, pb, pb + n)
    ensures Settled(a, z)
  {
    assert Inside(WalkPart, true);
    forall p | p != 0
      ensures z.refs(p) == a.refs(p) - (Uses(a.at, a.ents, p, W.PAGES) - Uses(z.at, z.ents, p, W.PAGES)) <= a.refs(p)
    {
      HeldUses(a.at, a.ents, p, pb, n);
      EmptiedUses(a.at, a.ents, z.at, z.ents, p, pb, pb + n, W.PAGES);
    }
  }

  /** Unmapping mapped pages leaves the entries of the others alone, if only mapped pages have entries. */
  lemma UnmapEmpties(at: Tables, ents: Entries, area: map<R.Node, V.Area>, at': Tables, ents': Entries,
                     area': map<R.Node, V.Area>, pb: nat, pe: nat)
    requires Backed(at, ents, area) && S.Cleared(at, ents, at', ents', pb, pe)
    requires S.Painted(area, area', 4096 * pb, 4096 * pe, None)
    requires forall v {:trigger S.CountOf(area')(v)} :: S.CountOf(area')(v) == 1 ==> M.LeafOf(v) in at'
    ensures Emptied(at, ents, at', ents', pb, pe) && Backed(at', ents', area')
  {
    forall v | 0 <= v < W.PAGES
      ensures S.EntryOf(at', ents', v) == if pb <= v < pe then 0 else S.EntryOf(at, ents, v)
      ensures S.EntryOf(at', ents', v) != 0 ==> S.CountOf(area')(v) == 1
    {
      StillCounted(area, area', pb, pe, v);
    }
  }

  lemma StillCounted(area: map<R.Node, V.Area>, area': map<R.Node, V.Area>, pb: int, pe: int, v: int)
    requires S.Painted(area, area', 4096 * pb, 4096 * pe, None)
    ensures S.CountOf(area')(v) == if pb <= v < pe then 0 else S.CountOf(area)(v)
  {
    assert pb <= v < pe <==> 4096 * pb <= 4096 * v < 4096 * pe;
    assert V.PermAt(area', 4096 * v) == if 4096 * pb <= 4096 * v < 4096 * pe then None else V.PermAt(area, 4096 * v);
  }

  // ----- the walk over the areas -----

  ghost function AccountOf(s: S.Space): Account
    reads s, s.tables
  {
    Account(s.refs, s.freed, s.tables.at, s.tables.ents)
  }

  ghost predicate EntriesBacked(s: S.Space)
    reads s, s.tables, s.vmas
  {
    Backed(s.tables.at, s.tables.ents, s.vmas.area)
  }

  lemma AreaPages(s: S.Space, n: R.Node)
    requires s.Valid() && n in s.vmas.area
    ensures var x := s.vmas.area[n];
            && 0 <= x.begin < x.end <= 4096 * S.USER && x.begin % 4096 == x.end % 4096 == 0
            && forall a :: x.begin <= a < x.end ==> S.Mapped(s.vmas.area, a)
  {
    assert Inside(AreasPart, true);
    s.AreasApart();
    var x := s.vmas.area[n];
    forall a | x.begin <= a < x.end ensures S.Mapped(s.vmas.area, a) { V.PermUnique(s.vmas.area, n, a); }
  }

  /** __munmap of just one area: it returns, and that area is all that is gone. */
  method UnmapVma(s: S.Space, n: R.Node)
    requires s.Valid() && n in s.vmas.area
    modifies s, s.tables, s.vmas, s.vmas.tree, s.vmas.tree.nodes
    ensures s.Valid() && s.vmas.area == old(s.vmas.area) - {n} && fresh(s.vmas.tree.nodes - old(s.vmas.tree.nodes))
    ensures old(EntriesBacked(s)) ==> EntriesBacked(s) && Settled(old(AccountOf(s)), AccountOf(s))
  {
    AreaPages(s, n);
    var begin, end := s.vmas.area[n].begin, s.vmas.area[n].end;
    s.MappedWalks(begin, end);
    var r := s.Munmap(begin, end);
    assert r == S.Returns && s.Valid();
    if old(EntriesBacked(s)) { Account1(s, old(AccountOf(s)), old(s.vmas.area), begin, end); }
  }

  lemma MappedLeaves(s: S.Space)
    requires s.Valid()
    ensures forall v {:trigger S.CountOf(s.vmas.area)(v)} :: S.CountOf(s.vmas.area)(v) == 1 ==>
            M.LeafOf(v) in s.tables.at
  {
    forall v | S.CountOf(s.vmas.area)(v) == 1 ensures M.LeafOf(v) in s.tables.at { s.MappedLeaf(v); }
  }

  lemma Account1(s: S.Space, a: Account, area: map<R.Node, V.Area>, begin: nat, end: nat)
    requires s.Valid() && begin < end <= 4096 * S.USER && begin % 4096 == end % 4096 == 0
    requires Backed(a.at, a.ents, area) && S.Painted(area, s.vmas.area, begin, end, None)
    requires S.Cleared(a.at, a.ents, s.tables.at, s.tables.ents, begin / 4096, end / 4096)
    requires S.Gave(a.refs, s.refs, a.freed, s.freed, S.Held(a.at, a.ents, begin / 4096, (end - begin) / 4096))
    ensures EntriesBacked(s) && Settled(a, AccountOf(s))
  {
    var pb, pe := begin / 4096, end / 4096;
    MappedLeaves(s);
    UnmapEmpties(a.at, a.ents, area, s.tables.at, s.tables.ents, s.vmas.area, pb, pe);
    GaveSettled(a, AccountOf(s), pb, pe - pb);
  }

  method First(s: S.Space) returns (n: R.Node?)
    requires s.Ordered()
    ensures s.vmas.IsFirst(n)
  {
    assert Inside(AreasPart, true);
    n := s.vmas.FirstVma();
  }

  method After(s: S.Space, n: R.Node) returns (r: R.Node?)
    requires s.Ordered() && n in s.vmas.area
    ensures s.vmas.Follows(n, r)
  {
    assert Inside(AreasPart, true);
    r := s.vmas.NextVma(n);
  }

  /** What is left after the first area is gone begins with the one after it. */
  lemma NextIsFirst(area: map<R.Node, V.Area>, mm: V.Mm, n: R.Node, r: R.Node?)
    requires V.Apart(area) && n in area && mm.area == area - {n}
    requires forall m {:trigger area[m]} :: m in area ==> area[n].begin <= area[m].begin
    requires if r == null then forall m {:trigger area[m]} :: m in area ==> area[m].begin <= area[n].begin
             else r in area && area[n].begin < area[r].begin &&
                  forall m {:trigger area[m]} :: m in area && area[n].begin < area[m].begin ==>
                      area[r].begin <= area[m].begin
    ensures mm.IsFirst(r)
  {
    forall m | m in area && m != n ensures area[n].begin < area[m].begin {
      assert area[n].begin < area[n].end && area[m].begin < area[m].end;
    }
    if r == null { assert mm.area.Keys == {}; }
  }

  /** If only mapped pages had entries at the start, that still holds and the uses given up are given back. */
  ghost predicate Balanced(s: S.Space, a: Account, backed: bool)
    reads s, s.tables, s.vmas
  {
    forall look {:trigger Inside(ChangePart, look)} :: Inside(ChangePart, look) && backed ==>
      EntriesBacked(s) && Settled(a, AccountOf(s))
  }

  lemma BalancedStart(s: S.Space)
    ensures Balanced(s, AccountOf(s), EntriesBacked(s))
  {
  }

  /** One round: the next area is looked up before this one goes. */
  method UnmapNext(s: S.Space, n: R.Node, ghost a: Account, ghost backed: bool) returns (next: R.Node?)
    requires s.Valid() && s.vmas.IsFirst(n) && Balanced(s, a, backed)
    modifies s, s.tables, s.vmas, s.vmas.tree, s.vmas.tree.nodes
    ensures s.Valid() && s.vmas.area == old(s.vmas.area) - {n} && s.vmas.IsFirst(next) && Balanced(s, a, backed)
    ensures fresh(s.vmas.tree.nodes - old(s.vmas.tree.nodes))
  {
    s.AreasApart();
    next := After(s, n);
    UnmapVma(s, n);
    NextIsFirst(old(s.vmas.area), s.vmas, n, next);
    assert backed ==> old(EntriesBacked(s)) && Settled(a, old(AccountOf(s))) by { assert Inside(ChangePart, true); }
    StillBalanced(s, a, old(AccountOf(s)), backed, old(EntriesBacked(s)));
  }

  lemma StillBalanced(s: S.Space, a: Account, y: Account, backed: bool, before: bool)
    requires before ==> EntriesBacked(s) && Settled(y, AccountOf(s))
    requires backed ==> before && Settled(a, y)
    ensures Balanced(s, a, backed)
  {
    if backed { SettledTwice(a, y, AccountOf(s)); }
  }

  /** unmap_all_vma, up to the tables. */
  method UnmapAreas(s: S.Space)
    requires s.Valid()
    modifies s, s.tables, s.vmas, s.vmas.tree, s.vmas.tree.nodes
    ensures s.Valid() && s.vmas.area == map[] && fresh(s.vmas.tree.nodes - old(s.vmas.tree.nodes))
    ensures Balanced(s, old(AccountOf(s)), old(EntriesBacked(s)))
  {
    ghost var a, backed := AccountOf(s), EntriesBacked(s);
    BalancedStart(s);
    var ptr := First(s);
    while ptr != null
      invariant s.Valid() && s.vmas.IsFirst(ptr) && fresh(s.vmas.tree.nodes - old(s.vmas.tree.nodes))
      invariant Balanced(s, a, backed)
      decreases s.vmas.area.Keys
    {
      ptr := UnmapNext(s, ptr, a, backed);
    }
  }

  /** Without areas there is no table but the root, and every other frame is free. */
  lemma OnlyRoot(t: T.Tabs, ents: Entries, frames: set<T.Frame>, root: T.Frame, area: map<R.Node, V.Area>)
    requires T.SoundTables(t, ents, frames, root) && T.Right(t, frames, T.Everywhere(S.CountOf(area))) && area == map[]
    ensures t.at == map[T.Place(4, 0) := root] && forall f :: f in frames <==> f == root || f in t.avail
  {
    var c := T.Everywhere(S.CountOf(area));
    forall x | x in t.at ensures x == T.Place(4, 0) {
      if 1 <= x.level <= 3 { T.EmptyExactly(t, frames, c, x); }
    }
    forall f | f in frames && f !in t.avail ensures f == root {
      assert T.Housed(t.at, f);
    }
  }

  /** All uses have been given back when no entry is left. */
  lemma AllGiven(a: Account, z: Account)
    requires Settled(a, z) && Backed(z.at, z.ents, map[])
    ensures forall p {:trigger z.refs(p)} :: p != 0 ==> z.refs(p) == a.refs(p) - Uses(a.at, a.ents, p, W.PAGES)
    ensures forall p {:trigger z.freed[p]} :: p != 0 ==> z.freed[p] == a.freed[p] + if a.refs(p) > 0 >= z.refs(p) then
            1 else 0
  {
    forall v | 0 <= v < W.PAGES ensures S.EntryOf(z.at, z.ents, v) == 0 {
      assert S.CountOf(map[])(v) == 0;
    }
    forall p | p != 0 ensures z.refs(p) == a.refs(p) - Uses(a.at, a.ents, p, W.PAGES) {
      NoUses(z.at, z.ents, p, W.PAGES);
    }
  }

  /**
   unmap_all_vma: nothing hangs, no area and no table but the root is left and every other frame is free. If
   only mapped pages had entries, every use of a page by an entry is given back, and a page is freed exactly
   when that was its last use.
   */
  method UnmapAll(s: S.Space)
    requires s.Valid()
    modifies s, s.tables, s.vmas, s.vmas.tree, s.vmas.tree.nodes
    ensures s.Valid() && s.vmas.area == map[] && fresh(s.vmas.tree.nodes - old(s.vmas.tree.nodes))
    ensures s.tables.at == map[T.Place(4, 0) := s.tables.root]
    ensures NoDup(s.tables.avail) && s.tables.root !in s.tables.avail
    ensures forall f :: f in s.tables.frames <==> f == s.tables.root || f in s.tables.avail
    ensures old(EntriesBacked(s)) ==> forall p {:trigger s.refs(p)} :: p != 0 ==>
              s.refs(p) == old(s.refs)(p) - old(Uses(s.tables.at, s.tables.ents, p, W.PAGES))
    ensures old(EntriesBacked(s)) ==> forall p {:trigger s.freed[p]} :: p != 0 ==>
              s.freed[p] == old(s.freed)[p] + if old(s.refs)(p) > 0 >= s.refs(p) then 1 else 0
  {
    UnmapAreas(s);
    s.tables.StepSound(S.CountOf(s.vmas.area));
    OnlyRoot(s.tables.Tab(), s.tables.ents, s.tables.frames, s.tables.root, s.vmas.area);
    assert s.tables.at[T.Place(4, 0)] == s.tables.root;
    if old(EntriesBacked(s)) {
      assert Inside(ChangePart, true);
      AllGiven(old(AccountOf(s)), AccountOf(s));
    }
  }

  /** release_mm: in the end every frame of the tables is free, exactly once. */
  method ReleaseMm(s: S.Space) returns (free: seq<T.Frame>)
    requires s.Valid()
    modifies s, s.tables, s.vmas, s.vmas.tree, s.vmas.tree.nodes
    ensures s.vmas.area == map[] && NoDup(free) && forall f :: f in free <==> f in s.tables.frames
  {
    UnmapAll(s);
    free := [s.tables.root] + s.tables.avail;
  }

  // ----- only mapped pages have entries -----

  lemma MmapBacked(t: T.Tabs, ents: Entries, area: map<R.Node, V.Area>, t': T.Tabs, ents': Entries,
                   area': map<R.Node, V.Area>, b: int, e: int, perm: int)
    requires Backed(t.at, ents, area) && S.Painted(area, area', b, e, Some(perm))
    requires T.Extended(t, ents, t', ents', b / 4096, e / 4096)
    ensures Backed(t'.at, ents', area')
  {
    assert Inside(ChangePart, true);
    forall v | 0 <= v < W.PAGES && S.EntryOf(t'.at, ents', v) != 0 ensures S.CountOf(area')(v) == 1 {
      assert S.EntryOf(t'.at, ents', v) == S.EntryOf(t.at, ents, v);
      assert V.PermAt(area', 4096 * v) == if b <= 4096 * v < e then Some(perm) else V.PermAt(area, 4096 * v);
    }
  }

  /** __mmap keeps entries to mapped pages. */
  method MmapKeeps(s: S.Space, begin: nat, end: nat, perm: int, memory: bool) returns (rc: V.Status)
    requires s.Valid() && end <= 4096 * S.USER && EntriesBacked(s)
    modifies s.tables, s.vmas, s.vmas.tree, s.vmas.tree.nodes
    ensures s.Valid() && EntriesBacked(s) && fresh(s.vmas.tree.nodes - old(s.vmas.tree.nodes))
  {
    ghost var t, ents, area := s.tables.Tab(), s.tables.ents, s.vmas.area;
    ghost var b, e;
    rc, b, e := s.Mmap(begin, end, perm, memory);
    if rc == V.Ok {
      MmapBacked(t, ents, area, s.tables.Tab(), s.tables.ents, s.vmas.area, b, e, perm);
    } else {
      AlikeBacked(t, ents, s.tables.Tab(), s.tables.ents, area);
    }
  }

  lemma AlikeBacked(t: T.Tabs, ents: Entries, t': T.Tabs, ents': Entries, area: map<R.Node, V.Area>)
    requires Backed(t.at, ents, area) && T.Alike(t, ents, t', ents')
    ensures Backed(t'.at, ents', area)
  {
    assert Inside(ChangePart, true);
    forall v | 0 <= v < W.PAGES && S.EntryOf(t'.at, ents', v) != 0 ensures S.CountOf(area)(v) == 1 {
      assert S.EntryOf(t'.at, ents', v) == S.EntryOf(t.at, ents, v);
    }
  }

  /** __mmap_pages keeps entries to mapped pages exactly when all its pages are mapped. */
  method MmapPagesKeeps(s: S.Space, pb: int, pages: seq<T.Frame>) returns (r: S.Ending)
    requires s.Valid() && W.Fits(pb, |pages|) && 0 !in pages && EntriesBacked(s)
    modifies s, s.tables
    ensures r == S.Returns ==> s.Valid()
    ensures r == S.Returns ==>
              (EntriesBacked(s) <==> forall v :: pb <= v < pb + |pages| ==> S.CountOf(s.vmas.area)(v) == 1)
  {
    ghost var at, ents := s.tables.at, s.tables.ents;
    r := s.MmapPages(pb, pages);
    if r == S.Returns {
      assert S.Stored(at, ents, s.tables.ents, pb, pages) by { assert Inside(WalkPart, true); }
      StoredBacked(at, ents, s.tables.ents, s.vmas.area, pb, pages);
    }
  }

  lemma StoredBacked(at: Tables, ents: Entries, ents': Entries, area: map<R.Node, V.Area>, pb: int, pages: seq<T.Frame>)
    requires Backed(at, ents, area) && S.Stored(at, ents, ents', pb, pages) && W.Fits(pb, |pages|) && 0 !in pages
    requires M.Walks(at, pb, |pages|)
    ensures Backed(at, ents', area) <==> forall v :: pb <= v < pb + |pages| ==> S.CountOf(area)(v) == 1
  {
    forall v | pb <= v < pb + |pages| ensures S.EntryOf(at, ents', v) != 0 {
      assert M.LeafOf(v) in at && pages[v - pb] in pages;
    }
    if Backed(at, ents', area) {
      forall v | pb <= v < pb + |pages| ensures S.CountOf(area)(v) == 1 { assert S.EntryOf(at, ents', v) != 0; }
    } else {
      var v :| 0 <= v < W.PAGES && S.EntryOf(at, ents', v) != 0 && S.CountOf(area)(v) != 1;
      assert M.LeafOf(v) in at;
      assert !(pb <= v < pb + |pages|) ==> S.EntryOf(at, ents, v) != 0;
    }
  }
}
