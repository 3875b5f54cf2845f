/**
 Population and release of four-level page tables (paging.c).

 Addresses are page numbers: a linear address shifted right by 12. A table of level L (1 to 4)
 covers 512^L pages. The ghost map `at` names the frame that holds each existing table.
 */
module PageTables {

  import opened Common

  type Frame = int

  /** Level and number: table n of level L covers the pages from Start(L, n) to Start(L, n + 1). */
  datatype Place = Place(level: int, n: int)

  /** How often a page is populated as seen by the tables of a level; the levels differ only mid-operation. */
  type Tally = (int, int) -> int

  const PT_SIZE := 512
  const LIMIT := 68719476736

  /** The first page of table n of a level: 512^level * n. */
  function Start(level: int, n: int): int
    decreases level
  {
    if level <= 0 then n else Start(level - 1, 512 * n)
  }

  /** The number of the table of a level around page v; its entry in the table above is this modulo 512. */
  function Slot(level: int, v: int): int
    decreases level
  {
    if level <= 0 then v else Slot(level - 1, v) / 512
  }

  /** A table of level 1 covers 512 pages, and each level above covers 512 times as many. */
  lemma Sizes(n: int, v: int)
    ensures Start(1, n) == 512 * n && Start(2, n) == 262144 * n && Start(3, n) == 134217728 * n &&
            Start(4, n) == LIMIT * n
    ensures Slot(1, v) == v / 512 && Slot(2, v) == v / 262144 && Slot(3, v) == v / 134217728 && Slot(4, v) == v / LIMIT
  {
    assert Start(1, 512 * n) == 262144 * n && Start(1, 512 * (512 * n)) == 134217728 * n;
    assert Start(2, 512 * n) == 134217728 * n && Start(2, 512 * (512 * n)) == LIMIT * n;
    assert Slot(2, v) == Slot(1, v) / 512 && Slot(3, v) == Slot(2, v) / 512 && Slot(4, v) == Slot(3, v) / 512;
  }

  lemma {:induction false} StartMonotone(l: int, m: int, n: int)
    requires m <= n
    ensures Start(l, m) <= Start(l, n) && (m < n ==> Start(l, m) < Start(l, n))
    decreases l
  {
    if l > 0 { StartMonotone(l - 1, 512 * m, 512 * n); }
  }

  lemma {:induction false} SlotBounds(l: int, v: int)
    ensures Start(l, Slot(l, v)) <= v < Start(l, Slot(l, v) + 1)
    decreases l
  {
    if l > 0 {
      SlotBounds(l - 1, v);
      var s := Slot(l - 1, v);
      StartMonotone(l - 1, 512 * (s / 512), s);
      StartMonotone(l - 1, s + 1, 512 * (s / 512 + 1));
    }
  }

  lemma Nesting(l: int, n: int, j: int)
    requires 1 <= l && 0 <= j < PT_SIZE
    ensures Start(l, n) <= Start(l - 1, 512 * n + j) < Start(l - 1, 512 * n + j + 1) <= Start(l, n + 1)
  {
    StartMonotone(l - 1, 512 * n, 512 * n + j);
    StartMonotone(l - 1, 512 * n + j, 512 * n + j + 1);
    StartMonotone(l - 1, 512 * n + j + 1, 512 * (n + 1));
  }

  lemma SlotUnique(l: int, n: int, v: int)
    requires Start(l, n) <= v < Start(l, n + 1)
    ensures Slot(l, v) == n
  {
    SlotBounds(l, v);
    var s := Slot(l, v);
    if s < n { StartMonotone(l, s + 1, n); }
    if n < s { StartMonotone(l, n + 1, s); }
  }

  // ----- sums of counts -----

  ghost function Sum(c: Tally, l: int, a: int, b: int): int
    decreases b - a
  {
    if b <= a then 0 else Sum(c, l, a, b - 1) + c(l, b - 1)
  }

  ghost function Load(c: Tally, l: int, n: int): int {
    Sum(c, l, Start(l, n), Start(l, n + 1))
  }

  ghost function Max(x: int, y: int): int { if x < y then y else x }
  ghost function Min(x: int, y: int): int { if x < y then x else y }

  /** The number of pages that the ranges [a, b) and [x, y) share. */
  ghost function Overlap(a: int, b: int, x: int, y: int): int {
    Max(0, Min(b, y) - Max(a, x))
  }

  /** c' is c with d added on level l for the pages of [a, b). */
  ghost predicate Bumped(c: Tally, c': Tally, l: int, a: int, b: int, d: int) {
    forall v {:trigger c'(l, v)} :: c'(l, v) == c(l, v) + if a <= v < b then d else 0
  }

  lemma {:induction false} SumBumped(c: Tally, c': Tally, l: int, a: int, b: int, d: int, x: int, y: int)
    requires Bumped(c, c', l, a, b, d) && a <= b
    ensures Sum(c', l, x, y) == Sum(c, l, x, y) + d * Overlap(a, b, x, y)
    decreases y - x
  {
    if x < y { SumBumped(c, c', l, a, b, d, x, y - 1); }
  }

  lemma {:induction false} SumSplit(c: Tally, l: int, x: int, y: int, z: int)
    requires x <= y <= z
    ensures Sum(c, l, x, z) == Sum(c, l, x, y) + Sum(c, l, y, z)
    decreases z - y
  {
    if y < z { SumSplit(c, l, x, y, z - 1); }
  }

  lemma {:induction false} SumBelow(c: Tally, l: int, m: int, x: int, y: int)
    requires forall v :: x <= v < y ==> 0 <= c(l, v) <= c(m, v)
    ensures 0 <= Sum(c, l, x, y) <= Sum(c, m, x, y)
    decreases y - x
  {
    if x < y { SumBelow(c, l, m, x, y - 1); }
  }

  /** The counts are natural numbers and a level never counts less than the level below it. */
  ghost predicate Mono(c: Tally) {
    && (forall l, v {:trigger c(l, v)} :: 1 <= l <= 3 ==> 0 <= c(l, v))
    && (forall v {:trigger c(2, v)} :: c(1, v) <= c(2, v) <= c(3, v))
    && (forall l, v {:trigger c(l, v)} :: 1 <= l <= 3 && (v < 0 || LIMIT <= v) ==> c(l, v) == 0)
  }

  /** A table with no populated page has no populated page in any table below it. */
  lemma EmptyBelow(c: Tally, l: int, n: int, j: int)
    requires Mono(c) && 2 <= l <= 3 && 0 <= j < PT_SIZE && Load(c, l, n) == 0
    ensures Load(c, l - 1, 512 * n + j) == 0
  {
    Nesting(l, n, j);
    var x, y := Start(l - 1, 512 * n + j), Start(l - 1, 512 * n + j + 1);
    assert forall v :: 0 <= c(l - 1, v) <= c(l, v);
    SumBelow(c, l - 1, l, x, y);
    SumSplit(c, l, Start(l, n), x, Start(l, n + 1));
    SumSplit(c, l, x, y, Start(l, n + 1));
    SumBelow(c, l, l, Start(l, n), x);
    SumBelow(c, l, l, y, Start(l, n + 1));
  }

  // ----- the tables in memory -----

  /** What the entry for a table holds: its frame, or 0 when there is no such table. */
  ghost function EntryOf(at: map<Place, Frame>, l: int, n: int): Frame {
    if Place(l, n) in at then at[Place(l, n)] else 0
  }

  /** A table below the root exists exactly when some page in its span is populated, except perhaps at `x`. */
  ghost predicate Present(at: map<Place, Frame>, c: Tally, x: Place) {
    && Place(4, 0) in at
    && (forall p :: p in at ==> 1 <= p.level <= 4 && (p.level == 4 ==> p.n == 0))
    && (forall l, n {:trigger Load(c, l, n)} :: 1 <= l <= 3 && Place(l, n) != x ==>
        (Place(l, n) in at <==> Load(c, l, n) > 0))
  }

  /** Each table's count is the number of times the pages of its span are populated, except perhaps at `x`. */
  ghost predicate Counted(at: map<Place, Frame>, ref: map<Frame, int>, c: Tally, x: Place) {
    && (forall p :: p in at ==> at[p] in ref)
    && (forall l, n {:trigger Load(c, l, n)} ::
          1 <= l <= 3 && Place(l, n) in at && Place(l, n) != x ==> ref[at[Place(l, n)]] == Load(c, l, n))
  }

  ghost predicate LinkedAt(at: map<Place, Frame>, ents: map<Frame, seq<Frame>>, p: Place)
    requires p in at
  {
    && at[p] in ents && |ents[at[p]]| == PT_SIZE
    && forall j :: 0 <= j < PT_SIZE ==> ents[at[p]][j] == EntryOf(at, p.level - 1, 512 * p.n + j)
  }

  /** Every table above level 1 points at exactly the tables that exist below it. */
  ghost predicate Linked(at: map<Place, Frame>, ents: map<Frame, seq<Frame>>) {
    forall p {:trigger LinkedAt(at, ents, p)} :: p in at && p.level >= 2 ==> LinkedAt(at, ents, p)
  }

  /** No other table is in the frame of `p`. */
  ghost predicate Alone(at: map<Place, Frame>, p: Place) {
    p in at && forall q {:trigger at[q]} :: q in at && at[q] == at[p] ==> q == p
  }

  /** No two tables share a frame, and no free frame holds a table. */
  ghost predicate Unshared(at: map<Place, Frame>, avail: seq<Frame>, frames: set<Frame>) {
    && 0 !in frames && NoDup(avail)
    && (forall p :: p in at ==> at[p] in frames && at[p] !in avail)
    && (forall p {:trigger Alone(at, p)} :: p in at ==> Alone(at, p))
    && (forall f :: f in avail ==> f in frames)
  }

  /** Every frame that is not free holds a table. */
  ghost predicate Covered(at: map<Place, Frame>, avail: seq<Frame>, frames: set<Frame>) {
    forall f {:trigger Housed(at, f)} :: f in frames && f !in avail ==> Housed(at, f)
  }

  ghost predicate Housed(at: map<Place, Frame>, f: Frame) {
    exists p :: p in at && at[p] == f
  }

  ghost predicate Extends(at: map<Place, Frame>, at': map<Place, Frame>) {
    forall p :: p in at ==> p in at' && at'[p] == at[p]
  }

  /** Tables below level `top` count one more (or one less) on the pages of [a, b). */
  ghost function Shift(c: Tally, bottom: int, top: int, a: int, b: int, d: int): Tally {
    (l: int, v: int) => c(l, v) + if bottom <= l < top && a <= v < b then d else 0
  }

  /** A change of the counts inside one table is seen by that table alone. */
  lemma LoadShift(c: Tally, l: int, a: int, b: int, d: int, x: int, m: int, n: int)
    requires 1 <= l <= 3 && 1 <= m <= 3 && Start(l, x) <= a <= b <= Start(l, x + 1)
    ensures Load(Shift(c, l, l + 1, a, b, d), m, n) == Load(c, m, n) + if m == l && n == x then d * (b - a) else 0
  {
    var c' := Shift(c, l, l + 1, a, b, d);
    if m == l {
      SumBumped(c, c', m, a, b, d, Start(m, n), Start(m, n + 1));
      if n < x { StartMonotone(l, n + 1, x); }
      if n > x { StartMonotone(l, x + 1, n); }
    } else {
      SumBumped(c, c', m, 0, 0, 0, Start(m, n), Start(m, n + 1));
    }
  }

  /** Level l counts every page of [a, b) more often than level l - 1 does; nothing is asked at the root. */
  ghost predicate Ahead(c: Tally, l: int, a: int, b: int) {
    l < 4 ==> forall v {:trigger c(l, v)} :: a <= v < b ==> c(l - 1, v) < c(l, v)
  }

  ghost predicate SameCounts(c: Tally, c': Tally) {
    forall l, v {:trigger c(l, v)} {:trigger c'(l, v)} :: 1 <= l <= 3 ==> c(l, v) == c'(l, v)
  }

  lemma MonoSame(c: Tally, c': Tally)
    requires Mono(c) && SameCounts(c, c')
    ensures Mono(c')
  {
    assert forall l, v {:trigger c'(l, v)} :: 1 <= l <= 3 ==> c'(l, v) == c(l, v);
  }

  lemma CountsUp(c: Tally, l: int, a: int, b: int)
    requires Mono(c) && 2 <= l <= 4 && Ahead(c, l, a, b) && 0 <= a && b <= LIMIT
    ensures var c1 := Shift(c, l - 1, l, a, b, 1);
            Mono(c1) && (l > 2 ==> Ahead(c1, l - 1, a, b)) &&
            Mono(Shift(c, 1, l, a, b, 1))
  {
    if l == 2 {
    } else if l == 3 {
    }
  }

  lemma CountsLayered(c: Tally, l: int, a: int, b: int)
    requires 2 <= l <= 4
    ensures var c1 := Shift(c, l - 1, l, a, b, 1);
            && SameCounts(Shift(c1, 1, l - 1, a, b, 1), Shift(c, 1, l, a, b, 1))
            && (l == 2 ==> SameCounts(c1, Shift(c, 1, l, a, b, 1)))
  {
  }

  /** c is c2 without the pages of [v, w) on the level of a half-made child. */
  ghost predicate ChildOf(c: Tally, c2: Tally, l: int, v: int, w: int) {
    c2(l - 1, v) > 0 && SameCounts(Shift(c2, l - 1, l, v, w, -1), c) && Mono(Shift(c2, l - 1, l, v, w, -1))
  }

  /** Taking the pages of [begin, v) off c0, and those of [v, w) off a half-made child, gives c again. */
  ghost predicate Undoes(c: Tally, c0: Tally, l: int, begin: int, v: int, w: int) {
    var c1 := Shift(c0, l - 1, l, v, w, 1);
    && Mono(Shift(c0, 1, l, begin, v, -1)) && SameCounts(Shift(c0, 1, l, begin, v, -1), c)
    && Mono(Shift(c1, 1, l, begin, v, -1)) && ChildOf(c, Shift(c1, 1, l, begin, v, -1), l, v, w)
  }

  lemma CountsBack(c: Tally, l: int, begin: int, v: int, w: int)
    requires Mono(c) && 2 <= l <= 4 && 0 <= begin <= v < w <= LIMIT && Ahead(c, l, v, w)
    ensures Undoes(c, Shift(c, 1, l, begin, v, 1), l, begin, v, w)
  {
    var c0 := Shift(c, 1, l, begin, v, 1);
    var c2 := Shift(Shift(c0, l - 1, l, v, w, 1), 1, l, begin, v, -1);
    var up := Shift(c, l - 1, l, v, w, 1);
    CountsUp(c, l, v, w);
    CountsCancel(c, l, begin, v, w);
    MonoSame(c, Shift(c0, 1, l, begin, v, -1));
    MonoSame(up, c2);
    MonoSame(c, Shift(c2, l - 1, l, v, w, -1));
  }

  lemma CountsCancel(c: Tally, l: int, begin: int, v: int, w: int)
    requires Mono(c) && 2 <= l <= 4 && begin <= v < w
    ensures var c0 := Shift(c, 1, l, begin, v, 1);
            var c1 := Shift(c0, l - 1, l, v, w, 1);
            var c2 := Shift(c1, 1, l, begin, v, -1);
            && c2(l - 1, v) > 0
            && SameCounts(c, Shift(c0, 1, l, begin, v, -1)) && SameCounts(Shift(c, l - 1, l, v, w, 1), c2)
            && SameCounts(c, Shift(c2, l - 1, l, v, w, -1))
  {
  }

  lemma CountsJoin(c: Tally, l: int, a: int, b: int, e: int, d: int)
    requires a <= b <= e
    ensures SameCounts(Shift(Shift(c, 1, l, a, b, d), 1, l, b, e, d), Shift(c, 1, l, a, e, d))
    ensures SameCounts(c, Shift(c, 1, l, a, a, d)) && (Mono(c) ==> Mono(Shift(c, 1, l, a, a, d)))
  {
  }

  lemma PopulateCounts(c: Tally, l: int, begin: int, v: int, w: int, end: int)
    requires Mono(c) && 2 <= l <= 4 && Ahead(c, l, begin, end) && 0 <= begin <= v < w <= end <= LIMIT
    ensures var c0, c' := Shift(c, 1, l, begin, v, 1), Shift(c, 1, l, begin, w, 1);
            && Ahead(c0, l, v, w) && Mono(c') && SameCounts(Shift(c0, 1, l, v, w, 1), c')
            && Undoes(c, c0, l, begin, v, w)
  {
    CountsUp(c, l, begin, w);
    CountsJoin(c, l, begin, v, w, 1);
    CountsBack(c, l, begin, v, w);
  }

  const NOWHERE := Place(0, 0)

  // ----- what releasing does, whatever the counts are -----

  /** The tables as maps: where they are, what they count, and the frames that are free. */
  datatype Tabs = Tabs(at: map<Place, Frame>, ref: map<Frame, int>, avail: seq<Frame>)

  /** How much each table's count goes down. */
  type Loss = Place -> int

  /** The table above. */
  function Parent(x: Place): Place {
    Place(x.level + 1, x.n / 512)
  }

  /** The pages of [a, b) in the span of a table. */
  ghost function Hit(x: Place, a: int, b: int): int {
    Overlap(a, b, Start(x.level, x.n), Start(x.level, x.n + 1))
  }

  /** Releasing [a, b) at the levels from `lo` up to `hi`. */
  ghost function Less(lo: int, hi: int, a: int, b: int): Loss {
    (x: Place) => if lo <= x.level < hi then Hit(x, a, b) else 0
  }

  ghost function Only(x: Place, pages: int): Loss {
    (y: Place) => if y == x then pages else 0
  }

  /** The count of the table reaches zero. */
  ghost predicate Emptied(s: Tabs, d: Loss, x: Place) {
    x in s.at && s.at[x] in s.ref && d(x) > 0 && s.ref[s.at[x]] == d(x)
  }

  /** The table, or one that it hangs under, goes away. */
  ghost predicate Cut(s: Tabs, d: Loss, x: Place)
    decreases 4 - x.level
  {
    Emptied(s, d, x) || (x.level < 3 && Cut(s, d, Parent(x)))
  }

  ghost predicate Freed(s: Tabs, d: Loss, f: Frame) {
    exists y :: Emptied(s, d, y) && s.at[y] == f
  }

  /**
   Every count goes down by its loss; a table is unlinked, with all that hangs under it, exactly when
   its count reaches zero, and exactly the frames of those tables are given back.
   */
  ghost predicate Shrunk(s: Tabs, s': Tabs, d: Loss) {
    && (forall x {:trigger x in s'.at} {:trigger Cut(s, d, x)} :: x in s'.at <==> x in s.at && !Cut(s, d, x))
    && (forall x {:trigger s'.at[x]} :: x in s'.at ==>
          && x in s.at && s'.at[x] == s.at[x] && s.at[x] in s.ref && s.at[x] in s'.ref
          && s'.ref[s.at[x]] == s.ref[s.at[x]] - d(x))
    && (forall f {:trigger f in s'.avail} :: f in s'.avail <==> f in s.avail || Freed(s, d, f))
  }

  lemma {:induction false} CutSame(s: Tabs, d: Loss, d': Loss, x: Place)
    requires forall y {:trigger d(y)} {:trigger d'(y)} :: y in s.at ==> d(y) == d'(y)
    ensures Cut(s, d, x) == Cut(s, d', x)
    decreases 4 - x.level
  {
    if x.level < 3 { CutSame(s, d, d', Parent(x)); }
  }

  /** Only the losses of existing tables matter. */
  lemma {:induction false} ShrunkSame(s: Tabs, s': Tabs, d: Loss, d': Loss)
    requires Shrunk(s, s', d) && forall y {:trigger d(y)} {:trigger d'(y)} :: y in s.at ==> d(y) == d'(y)
    ensures Shrunk(s, s', d')
  {
    forall x ensures Cut(s, d, x) == Cut(s, d', x) { CutSame(s, d, d', x); }
    forall f ensures Freed(s, d, f) <==> Freed(s, d', f) {
      if y :| Emptied(s, d, y) && s.at[y] == f { assert Emptied(s, d', y); }
      if y :| Emptied(s, d', y) && s.at[y] == f { assert Emptied(s, d, y); }
    }
  }

  /** The second of two losses is to tables that the first leaves alone. */
  ghost predicate Later(s: Tabs, d1: Loss, d2: Loss) {
    forall x {:trigger d2(x)} :: x in s.at && d2(x) != 0 ==> d1(x) == 0 && !Cut(s, d1, x)
  }

  lemma {:induction false} EmptiedTwice(s0: Tabs, s1: Tabs, d1: Loss, d2: Loss, d: Loss, x: Place)
    requires Shrunk(s0, s1, d1) && Later(s0, d1, d2)
    requires d(x) == d1(x) + d2(x)
    ensures Emptied(s0, d, x) <==> Emptied(s0, d1, x) || Emptied(s1, d2, x)
  {
    if x in s0.at && d2(x) != 0 {
      assert x in s1.at && s1.at[x] == s0.at[x];
    }
  }

  lemma {:induction false} CutTwice(s0: Tabs, s1: Tabs, d1: Loss, d2: Loss, d: Loss, x: Place)
    requires Shrunk(s0, s1, d1) && Later(s0, d1, d2) && forall y {:trigger d(y)} :: d(y) == d1(y) + d2(y)
    ensures Cut(s0, d, x) <==> Cut(s0, d1, x) || Cut(s1, d2, x)
    decreases 4 - x.level
  {
    EmptiedTwice(s0, s1, d1, d2, d, x);
    if x.level < 3 { CutTwice(s0, s1, d1, d2, d, Parent(x)); }
  }

  /** Two releases, one after the other, are one. */
  lemma {:induction false} ShrunkTwice(s0: Tabs, s1: Tabs, s2: Tabs, d1: Loss, d2: Loss, d: Loss)
    requires Shrunk(s0, s1, d1) && Shrunk(s1, s2, d2) && Later(s0, d1, d2)
    requires forall y {:trigger d(y)} :: d(y) == d1(y) + d2(y)
    ensures Shrunk(s0, s2, d)
  {
    forall x ensures x in s2.at <==> x in s0.at && !Cut(s0, d, x) {
      CutTwice(s0, s1, d1, d2, d, x);
      assert x in s1.at <==> x in s0.at && !Cut(s0, d1, x);
      assert x in s2.at <==> x in s1.at && !Cut(s1, d2, x);
    }
    forall x | x in s2.at
      ensures s0.at[x] in s0.ref && s0.at[x] in s2.ref && s2.at[x] == s0.at[x] &&
              s2.ref[s0.at[x]] == s0.ref[s0.at[x]] - d(x)
    {
      assert s2.at[x] == s1.at[x] == s0.at[x];
    }
    forall f ensures f in s2.avail <==> f in s0.avail || Freed(s0, d, f) {
      FreedTwice(s0, s1, d1, d2, d, f);
      assert f in s2.avail <==> f in s1.avail || Freed(s1, d2, f);
    }
  }

  lemma {:induction false} FreedTwice(s0: Tabs, s1: Tabs, d1: Loss, d2: Loss, d: Loss, f: Frame)
    requires Shrunk(s0, s1, d1) && Later(s0, d1, d2) && forall y {:trigger d(y)} :: d(y) == d1(y) + d2(y)
    ensures Freed(s0, d, f) <==> Freed(s0, d1, f) || Freed(s1, d2, f)
  {
    if y :| Emptied(s0, d, y) && s0.at[y] == f {
      EmptiedTwice(s0, s1, d1, d2, d, y);
      if Emptied(s1, d2, y) { assert s1.at[y] == s0.at[y]; }
    }
    if y :| Emptied(s0, d1, y) && s0.at[y] == f { EmptiedTwice(s0, s1, d1, d2, d, y); }
    if y :| Emptied(s1, d2, y) && s1.at[y] == f {
      EmptiedTwice(s0, s1, d1, d2, d, y);
      assert s1.at[y] == s0.at[y];
    }
  }

  /** Nothing is lost where no existing table loses anything. */
  lemma {:induction false} NotCut(s: Tabs, d: Loss, x: Place)
    requires forall y {:trigger d(y)} :: y in s.at ==> d(y) == 0
    ensures !Cut(s, d, x)
    decreases 4 - x.level
  {
    if x.level < 3 { NotCut(s, d, Parent(x)); }
  }

  lemma {:induction false} ShrunkNot(s: Tabs, d: Loss)
    requires (forall y {:trigger d(y)} :: y in s.at ==> d(y) == 0) && forall x {:trigger s.at[x]} :: x in s.at ==>
             s.at[x] in s.ref
    ensures Shrunk(s, s, d)
  {
    forall x ensures !Cut(s, d, x) { NotCut(s, d, x); }
  }

  /** A table of a level that loses nothing at or above it stays. */
  lemma {:induction false} UpperKept(s: Tabs, d: Loss, x: Place)
    requires forall y: Place {:trigger d(y)} :: y.level >= x.level ==> d(y) == 0
    ensures !Cut(s, d, x)
    decreases 4 - x.level
  {
    if x.level < 3 { UpperKept(s, d, Parent(x)); }
  }

  // ----- releasing pages that are populated keeps the counts right -----

  lemma {:induction false} LoadLess(c: Tally, c': Tally, lo: int, hi: int, a: int, b: int, m: int, n: int)
    requires SameCounts(Shift(c, lo, hi, a, b, -1), c') && a <= b && 1 <= m <= 3
    ensures Load(c', m, n) == Load(c, m, n) - Less(lo, hi, a, b)(Place(m, n))
  {
    var s, x, y := Shift(c, lo, hi, a, b, -1), Start(m, n), Start(m, n + 1);
    if lo <= m < hi {
      SumBumped(c, s, m, a, b, -1, x, y);
    } else {
      SumBumped(c, s, m, 0, 0, 0, x, y);
    }
    SumBumped(s, c', m, 0, 0, 0, x, y);
  }

  /** The loads change by what the existing tables lose. */
  ghost predicate Follows(at: map<Place, Frame>, d: Loss, c: Tally, c': Tally) {
    forall l, n {:trigger Load(c', l, n)} :: 1 <= l <= 3 ==>
      Load(c', l, n) == if Place(l, n) in at then Load(c, l, n) - d(Place(l, n)) else 0
  }

  /** Every table counts the pages of its span, and exists exactly when there are any. */
  ghost predicate Right(s: Tabs, frames: set<Frame>, c: Tally) {
    Mono(c) && Present(s.at, c, NOWHERE) && Counted(s.at, s.ref, c, NOWHERE) && Covered(s.at, s.avail, frames)
  }

  /** Where the counts are right, a table that hangs under an emptied one is empty itself. */
  lemma {:induction false} CutMeansEmpty(s: Tabs, d: Loss, c: Tally, c': Tally, x: Place)
    requires Mono(c') && Follows(s.at, d, c, c') && Counted(s.at, s.ref, c, NOWHERE) && 1 <= x.level <= 3 &&
             Cut(s, d, x)
    ensures Load(c', x.level, x.n) == 0
    decreases 4 - x.level
  {
    assert x == Place(x.level, x.n);
    if !Emptied(s, d, x) {
      var p := Parent(x);
      assert x.n == 512 * p.n + x.n % 512;
      CutMeansEmpty(s, d, c, c', p);
      EmptyBelow(c', p.level, p.n, x.n % 512);
    }
  }

  lemma {:induction false} ShrunkPresent(s: Tabs, s': Tabs, frames: set<Frame>, d: Loss, c: Tally, c': Tally, x: Place)
    requires Right(s, frames, c) && Mono(c') && Follows(s.at, d, c, c') && 1 <= x.level <= 3 && Shrunk(s, s', d)
    ensures x in s'.at <==> Load(c', x.level, x.n) > 0
    ensures x in s.at && x !in s'.at ==> Emptied(s, d, x)
  {
    LoadNonnegative(c', x.level, x.n);
    assert x == Place(x.level, x.n);
    assert x in s.at <==> Load(c, x.level, x.n) > 0;
    if Cut(s, d, x) { CutMeansEmpty(s, d, c, c', x); }
  }

  /** A release under which the loads follow keeps the tables right. */
  lemma {:induction false} ShrunkRight(s: Tabs, s': Tabs, frames: set<Frame>, d: Loss, c: Tally, c': Tally)
    requires Right(s, frames, c) && Mono(c') && Follows(s.at, d, c, c') && Shrunk(s, s', d)
    requires forall x: Place {:trigger d(x)} :: x.level >= 4 ==> d(x) == 0
    ensures Right(s', frames, c')
  {
    forall l, n | 1 <= l <= 3 ensures Place(l, n) in s'.at <==> Load(c', l, n) > 0 {
      ShrunkPresent(s, s', frames, d, c, c', Place(l, n));
    }
    UpperKept(s, d, Place(4, 0));
    forall l, n | 1 <= l <= 3 && Place(l, n) in s'.at ensures s'.ref[s'.at[Place(l, n)]] == Load(c', l, n) {
      assert s'.at[Place(l, n)] == s.at[Place(l, n)] && Load(c, l, n) == s.ref[s.at[Place(l, n)]];
    }
    forall f | f in frames && f !in s'.avail ensures Housed(s'.at, f) {
      assert Housed(s.at, f);
      var p :| p in s.at && s.at[p] == f;
      if p.level == 4 { UpperKept(s, d, p); } else { ShrunkPresent(s, s', frames, d, c, c', p); }
      assert p !in s'.at ==> Freed(s, d, f);
      assert s'.at[p] == f;
    }
  }

  /** The losses of a release of pages that all levels count. */
  lemma {:induction false} ShiftFollows(s: Tabs, frames: set<Frame>, c: Tally, c': Tally, lo: int, hi: int, a: int,
                                        b: int)
    requires Right(s, frames, c) && Mono(c') && SameCounts(Shift(c, lo, hi, a, b, -1), c') && a <= b
    ensures Follows(s.at, Less(lo, hi, a, b), c, c')
  {
    forall l, n {:trigger Load(c', l, n)} | 1 <= l <= 3
      ensures Load(c', l, n) == if Place(l, n) in s.at then Load(c, l, n) - Less(lo, hi, a, b)(Place(l, n)) else 0
    {
      LoadLess(c, c', lo, hi, a, b, l, n);
      LoadNonnegative(c', l, n);
      LoadNonnegative(c, l, n);
    }
  }

  // ----- releasing pages of which some are not populated -----

  /** Each populated page of [a, b) counts once less. */
  ghost function Taken(count: int -> int, a: int, b: int): int -> int {
    v => if a <= v < b && count(v) >= 1 then count(v) - 1 else count(v)
  }

  lemma {:induction false} SumTaken(count: int -> int, a: int, b: int, l: int, x: int, y: int)
    requires a <= b
    ensures var c, c' := Everywhere(count), Everywhere(Taken(count, a, b));
            && Sum(c', l, x, y) >= Sum(c, l, x, y) - Overlap(a, b, x, y)
            && (Sum(c', l, x, y) == Sum(c, l, x, y) - Overlap(a, b, x, y) <==>
                  forall v {:trigger count(v)} :: a <= v < b && x <= v < y ==> count(v) >= 1)
    decreases y - x
  {
    if x < y { SumTaken(count, a, b, l, x, y - 1); }
  }

  lemma {:induction false} SumNone(count: int -> int, a: int, b: int, l: int, x: int, y: int)
    requires Mono(Everywhere(count)) && 1 <= l <= 3 && Sum(Everywhere(count), l, x, y) == 0
    ensures Sum(Everywhere(Taken(count, a, b)), l, x, y) == 0
    decreases y - x
  {
    if x < y {
      SumBelow(Everywhere(count), l, l, x, y - 1);
      assert Everywhere(count)(l, y - 1) >= 0;
      SumNone(count, a, b, l, x, y - 1);
    }
  }

  /** A page of an existing table lies in an existing table of level 3. */
  lemma {:induction false} AboveLoaded(c: Tally, m: int, n: int, v: int)
    requires Mono(c) && 1 <= m <= 3 && Load(c, m, n) > 0 && Start(m, n) <= v < Start(m, n + 1)
    ensures Load(c, 3, Slot(3, v)) > 0
    decreases 3 - m
  {
    if m == 3 {
      SlotUnique(3, n, v);
    } else {
      var p, i := n / 512, n % 512;
      assert n == 512 * p + i;
      ParentLoaded(c, m, p, i, v);
      AboveLoaded(c, m + 1, p, v);
    }
  }

  lemma {:induction false} ParentLoaded(c: Tally, m: int, p: int, i: int, v: int)
    requires Mono(c) && 1 <= m <= 2 && 0 <= i < PT_SIZE && Load(c, m, 512 * p + i) > 0
    requires Start(m, 512 * p + i) <= v < Start(m, 512 * p + i + 1)
    ensures Load(c, m + 1, p) > 0 && Start(m + 1, p) <= v < Start(m + 1, p + 1)
  {
    LoadNonnegative(c, m + 1, p);
    if Load(c, m + 1, p) == 0 { EmptyBelow(c, m + 1, p, i); }
    Nesting(m + 1, p, i);
  }

  /** A table exists exactly when its level counts a page of its span. */
  lemma {:induction false} EmptyExactly(s: Tabs, frames: set<Frame>, c: Tally, x: Place)
    requires Right(s, frames, c) && 1 <= x.level <= 3
    ensures x !in s.at <==> forall v {:trigger c(x.level, v)} ::
            Start(x.level, x.n) <= v < Start(x.level, x.n + 1) ==> c(x.level, v) == 0
  {
    assert x == Place(x.level, x.n) && (x in s.at <==> Load(c, x.level, x.n) > 0);
    if v :| Start(x.level, x.n) <= v < Start(x.level, x.n + 1) && c(x.level, v) != 0 {
      LoadPositive(c, x.level, x.n, v);
    } else {
      SumZeroes(c, x.level, Start(x.level, x.n), Start(x.level, x.n + 1));
    }
  }

  /** The pages that a release of [a, b) takes although they are not populated: those with a table of level 3. */
  ghost predicate NoHole(at: map<Place, Frame>, count: int -> int, a: int, b: int) {
    forall v {:trigger count(v)} :: a <= v < b ==> count(v) >= 1 || Place(3, Slot(3, v)) !in at
  }

  lemma {:induction false} TakenFollows(s: Tabs, frames: set<Frame>, count: int -> int, a: int, b: int)
    requires Right(s, frames, Everywhere(count)) && a <= b && NoHole(s.at, count, a, b)
    ensures Follows(s.at, Less(1, 4, a, b), Everywhere(count), Everywhere(Taken(count, a, b)))
  {
    var c, c' := Everywhere(count), Everywhere(Taken(count, a, b));
    forall l, n {:trigger Load(c', l, n)} | 1 <= l <= 3
      ensures Load(c', l, n) == if Place(l, n) in s.at then Load(c, l, n) - Less(1, 4, a, b)(Place(l, n)) else 0
    {
      var x, y := Start(l, n), Start(l, n + 1);
      LoadNonnegative(c, l, n);
      if Place(l, n) in s.at {
        SumTaken(count, a, b, l, x, y);
        forall v | a <= v < b && x <= v < y ensures count(v) >= 1 {
          AboveLoaded(c, l, n, v);
          assert Place(3, Slot(3, v)) in s.at <==> Load(c, 3, Slot(3, v)) > 0;
        }
      } else {
        SumNone(count, a, b, l, x, y);
      }
    }
  }

  lemma {:induction false} TakenMono(count: int -> int, a: int, b: int)
    requires Mono(Everywhere(count))
    ensures Mono(Everywhere(Taken(count, a, b)))
  {
    var c, c' := Everywhere(count), Everywhere(Taken(count, a, b));
    forall l, v {:trigger c'(l, v)} | 1 <= l <= 3 ensures 0 <= c'(l, v) && (v < 0 || LIMIT <= v ==> c'(l, v) == 0) {
      assert 0 <= c(l, v) && (v < 0 || LIMIT <= v ==> c(l, v) == 0);
    }
  }

  /**
   Releasing [a, b) takes one count from every existing table for every page of its span, populated or
   not. The tables are right afterwards exactly when each page was populated or lies in the span of no
   table of level 3.
   */
  lemma {:induction false} ReleaseExact(s: Tabs, s': Tabs, frames: set<Frame>, count: int -> int, a: int, b: int)
    requires Right(s, frames, Everywhere(count)) && a <= b && Shrunk(s, s', Less(1, 4, a, b))
    ensures Right(s', frames, Everywhere(Taken(count, a, b))) <==> NoHole(s.at, count, a, b)
  {
    var c, c' := Everywhere(count), Everywhere(Taken(count, a, b));
    TakenMono(count, a, b);
    if NoHole(s.at, count, a, b) {
      TakenFollows(s, frames, count, a, b);
      ShrunkRight(s, s', frames, Less(1, 4, a, b), c, c');
    } else {
      var v :| a <= v < b && count(v) < 1 && Place(3, Slot(3, v)) in s.at;
      HoleBreaks(s, s', frames, count, a, b, v);
    }
  }

  lemma {:induction false} HoleBreaks(s: Tabs, s': Tabs, frames: set<Frame>, count: int -> int, a: int, b: int, v: int)
    requires Right(s, frames, Everywhere(count)) && Shrunk(s, s', Less(1, 4, a, b))
    requires a <= v < b && count(v) < 1 && Place(3, Slot(3, v)) in s.at
    ensures !Right(s', frames, Everywhere(Taken(count, a, b)))
  {
    var d, c, c', n := Less(1, 4, a, b), Everywhere(count), Everywhere(Taken(count, a, b)), Slot(3, v);
    var x := Place(3, n);
    SlotBounds(3, v);
    HoleLoad(count, a, b, x, v);
    assert s.ref[s.at[x]] == Load(c, x.level, x.n);
    assert x in s'.at <==> !Emptied(s, d, x);
    assert x in s'.at ==> s'.at[x] == s.at[x];
  }

  lemma {:induction false} HoleLoad(count: int -> int, a: int, b: int, x: Place, v: int)
    requires a <= v < b && count(v) < 1 && 1 <= x.level < 4 && Start(x.level, x.n) <= v < Start(x.level, x.n + 1)
    ensures var d := Less(1, 4, a, b)(x);
            0 < d && Load(Everywhere(Taken(count, a, b)), x.level, x.n) > Load(Everywhere(count), x.level, x.n) - d
  {
    SumTaken(count, a, b, x.level, Start(x.level, x.n), Start(x.level, x.n + 1));
  }

  lemma {:induction false} SumZeroes(c: Tally, l: int, x: int, y: int)
    requires forall v {:trigger c(l, v)} :: x <= v < y ==> c(l, v) == 0
    ensures Sum(c, l, x, y) == 0
    decreases y - x
  {
    if x < y { SumZeroes(c, l, x, y - 1); }
  }

  /**
   With page 0 and one of the next two populated, releasing [0, 2) frees their table of level 1. For page 2
   this is the table in which that page is still counted.
   */
  lemma {:induction false} HoleFreesTable(s: Tabs, s': Tabs, frames: set<Frame>, count: int -> int, k: int)
    requires Right(s, frames, Everywhere(count)) && Shrunk(s, s', Less(1, 4, 0, 2)) && 1 <= k <= 2
    requires forall v {:trigger count(v)} :: count(v) == if v == 0 || v == k then 1 else 0
    ensures var x := Place(1, 0); x in s.at && x !in s'.at && s.at[x] in s'.avail
  {
    var c, x, d := Everywhere(count), Place(1, 0), Less(1, 4, 0, 2);
    TwoPages(count, k);
    assert Start(1, 0) == Start(0, 0) == 0 && Start(1, 1) == Start(0, 512) == 512;
    assert Emptied(s, d, x);
    assert Freed(s, d, s.at[x]);
  }

  lemma {:induction false} TwoPages(count: int -> int, k: int)
    requires (forall v {:trigger count(v)} :: count(v) == if v == 0 || v == k then 1 else 0) && 1 <= k <= 2
    ensures Load(Everywhere(count), 1, 0) == 2
  {
    var c := Everywhere(count);
    assert Start(1, 0) == Start(0, 0) == 0 && Start(1, 1) == Start(0, 512) == 512;
    SumSplit(c, 1, 0, 3, 512);
    SumZeroes(c, 1, 3, 512);
    assert Sum(c, 1, 0, 3) == Sum(c, 1, 0, 2) + c(1, 2);
    assert Sum(c, 1, 0, 2) == Sum(c, 1, 0, 1) + c(1, 1);
    assert Sum(c, 1, 0, 1) == Sum(c, 1, 0, 0) + c(1, 0);
  }

  // ----- the tables that a range needs -----

  /** The tables below level l on the paths of the pages of [a, b). */
  ghost function Needed(l: int, a: int, b: int): set<Place> {
    set m, n | 1 <= m < l && a < b && Slot(m, a) <= n <= Slot(m, b - 1) :: Place(m, n)
  }

  lemma {:induction false} NeededMembers(l: int, a: int, b: int, x: Place)
    ensures x in Needed(l, a, b) <==>
            1 <= x.level < l && a < b && Start(x.level, x.n) < b && a < Start(x.level, x.n + 1)
  {
    var m := x.level;
    assert x in Needed(l, a, b) <==> 1 <= m < l && a < b && Slot(m, a) <= x.n <= Slot(m, b - 1);
    SlotBounds(m, a);
    SlotBounds(m, b - 1);
    if x.n < Slot(m, a) { StartMonotone(m, x.n + 1, Slot(m, a)); } else { StartMonotone(m, Slot(m, a) + 1, x.n + 1); }
    if x.n > Slot(m, b - 1) { StartMonotone(m, Slot(m, b - 1) + 1, x.n); }
        else { StartMonotone(m, x.n, Slot(m, b - 1)); }
    StartMonotone(m, x.n, x.n + 1);
  }

  lemma {:induction false} NeededJoin(l: int, a: int, v: int, b: int)
    requires a <= v <= b
    ensures Needed(l, a, b) == Needed(l, a, v) + Needed(l, v, b)
  {
    forall x ensures x in Needed(l, a, b) <==> x in Needed(l, a, v) + Needed(l, v, b) {
      NeededMembers(l, a, b, x);
      NeededMembers(l, a, v, x);
      NeededMembers(l, v, b, x);
      StartMonotone(x.level, x.n, x.n + 1);
    }
  }

  /** Inside one entry, the range needs the table of the entry and what that needs. */
  lemma {:induction false} NeededEntry(l: int, n: int, a: int, b: int)
    requires 2 <= l && Start(l - 1, n) <= a < b <= Start(l - 1, n + 1)
    ensures Needed(l, a, b) == {Place(l - 1, n)} + Needed(l - 1, a, b)
  {
    SlotUnique(l - 1, n, a);
    SlotUnique(l - 1, n, b - 1);
  }

  ghost function Elements(s: seq<Frame>): set<Frame> {
    set f | f in s
  }

  lemma {:induction false} ElementsCount(s: seq<Frame>)
    requires NoDup(s)
    ensures |Elements(s)| == |s|
  {
    if s != [] {
      var n := |s| - 1;
      ElementsCount(s[..n]);
      assert s == s[..n] + [s[n]];
      assert Elements(s) == Elements(s[..n]) + {s[n]};
    }
  }

  ghost function Held(at: map<Place, Frame>): set<Frame> {
    set p | p in at :: at[p]
  }

  lemma {:induction false} HeldCount(at: map<Place, Frame>)
    requires forall p {:trigger Alone(at, p)} :: p in at ==> Alone(at, p)
    ensures |Held(at)| == |at.Keys|
    decreases |at|
  {
    if p :| p in at {
      var less := at - {p};
      assert Alone(at, p);
      forall q | q in less ensures Alone(less, q) { assert Alone(at, q); }
      HeldCount(less);
      assert at.Keys == less.Keys + {p};
      assert Held(at) == Held(less) + {at[p]};
    } else {
      assert at.Keys == {} && Held(at) == {};
    }
  }

  /** Every frame holds a table or is free. */
  lemma {:induction false} FrameCount(at: map<Place, Frame>, avail: seq<Frame>, frames: set<Frame>)
    requires Unshared(at, avail, frames) && Covered(at, avail, frames)
    ensures |at.Keys| + |avail| == |frames|
  {
    HeldCount(at);
    ElementsCount(avail);
    var held, free := Held(at), Elements(avail);
    forall f ensures f in frames <==> f in held + free {
      if f in frames && f !in free { assert Housed(at, f); }
    }
    assert frames == held + free && held !! free;
  }

  datatype Outcome = Done | NoTable | NoTableBelow

  function Zeroes(): seq<Frame> {
    seq(PT_SIZE, _ => 0)
  }

  /** Every table has a count and PT_SIZE entries. */
  ghost predicate Placed(at: map<Place, Frame>, ref: map<Frame, int>, ents: map<Frame, seq<Frame>>) {
    forall p {:trigger at[p]} :: p in at ==>
      && 1 <= p.level <= 4 && (p.level == 4 ==> p.n == 0)
      && at[p] in ref && at[p] in ents && |ents[at[p]]| == PT_SIZE
  }

  ghost predicate HangsAt(at: map<Place, Frame>, p: Place) {
    p.level < 4 ==> Parent(p) in at
  }

  /** Every table hangs under another, up to the root. */
  ghost predicate Closed(at: map<Place, Frame>) {
    && Place(4, 0) in at
    && forall p {:trigger HangsAt(at, p)} :: p in at ==> HangsAt(at, p)
  }

  /** The tables form a tree of frames of their own, whatever they count. */
  ghost predicate SoundTables(s: Tabs, ents: map<Frame, seq<Frame>>, frames: set<Frame>, root: Frame) {
    && Placed(s.at, s.ref, ents) && Linked(s.at, ents) && Unshared(s.at, s.avail, frames) && Closed(s.at)
    && s.at[Place(4, 0)] == root
  }

  /** Tables of level 1 keep their entries; new ones have none. */
  ghost predicate Leaves(at: map<Place, Frame>, ents: map<Frame, seq<Frame>>, at': map<Place, Frame>,
                         ents': map<Frame, seq<Frame>>) {
    forall x {:trigger at'[x]} :: x in at' && x.level == 1 ==>
      at'[x] in ents' && ents'[at'[x]] == if x in at && at[x] in ents then ents[at[x]] else Zeroes()
  }

  lemma {:induction false} LeavesTrans(at0: map<Place, Frame>, ents0: map<Frame, seq<Frame>>, at1: map<Place, Frame>,
                                       ents1: map<Frame, seq<Frame>>,
                                       at2: map<Place, Frame>, ents2: map<Frame, seq<Frame>>)
    requires Leaves(at0, ents0, at1, ents1) && Leaves(at1, ents1, at2, ents2)
    requires forall x :: x in at0 && x in at2 ==> x in at1
    ensures Leaves(at0, ents0, at2, ents2)
  {
    forall x {:trigger at2[x]} | x in at2 && x.level == 1
      ensures at2[x] in ents2 && ents2[at2[x]] == if x in at0 && at0[x] in ents0 then ents0[at0[x]] else Zeroes()
    {
      if x in at1 { assert at1[x] in ents1; }
    }
  }

  // ----- unlinking one table -----

  /** Losing the pages `k` of the child of `p` behind entry `j`, which reaches zero. */
  lemma {:induction false} PrunedCut(s: Tabs, x: Place, k: int, y: Place)
    requires Emptied(s, Only(x, k), x) && 1 <= x.level <= 3
    ensures Cut(s, Only(x, k), y) <==> y == x || (y.level < 3 && Cut(s, Only(x, k), Parent(y)))
  {
  }

  lemma {:induction false} PrunedLinked(s: Tabs, ents: map<Frame, seq<Frame>>, at': map<Place, Frame>, p: Place,
                                        j: int, k: int)
    requires Linked(s.at, ents) && p in s.at && 2 <= p.level <= 4 && 0 <= j < PT_SIZE && LinkedAt(s.at, ents, p)
    requires Alone(s.at, p)
    requires var x := Place(p.level - 1, 512 * p.n + j); Emptied(s, Only(x, k), x)
    requires var d := Only(Place(p.level - 1, 512 * p.n + j), k); at' == map y | y in s.at && !Cut(s, d, y) :: s.at[y]
    ensures Linked(at', ents[s.at[p] := ents[s.at[p]][j := 0]])
  {
    var x := Place(p.level - 1, 512 * p.n + j);
    var d, ents' := Only(x, k), ents[s.at[p] := ents[s.at[p]][j := 0]];
    forall q | q in at' && q.level >= 2 ensures LinkedAt(at', ents', q) {
      assert LinkedAt(s.at, ents, q);
      forall i | 0 <= i < PT_SIZE ensures ents'[at'[q]][i] == EntryOf(at', q.level - 1, 512 * q.n + i) {
        var y := Place(q.level - 1, 512 * q.n + i);
        assert Parent(y) == q;
        PrunedCut(s, x, k, y);
        assert y == x <==> q == p && i == j;
      }
    }
  }

  lemma {:induction false} PrunedClosed(s: Tabs, d: Loss, at': map<Place, Frame>)
    requires Closed(s.at) && forall y: Place {:trigger d(y)} :: y.level >= 4 ==> d(y) == 0
    requires forall y {:trigger y in at'} {:trigger Cut(s, d, y)} :: y in at' <==> y in s.at && !Cut(s, d, y)
    ensures Closed(at')
  {
    UpperKept(s, d, Place(4, 0));
    forall y | y in at' ensures HangsAt(at', y) {
      assert HangsAt(s.at, y);
      if y.level == 3 { UpperKept(s, d, Parent(y)); }
    }
  }

  /** A table in an entry's span hangs under the table of that entry. */
  lemma {:induction false} SpanUnder(at: map<Place, Frame>, y: Place, l: int, n: int, v: int, w: int)
    requires Closed(at) && y in at && 1 <= y.level <= l <= 3 && Start(l, n) <= v < w <= Start(l, n + 1) &&
             Hit(y, v, w) > 0
    ensures Place(l, n) in at && Start(l, n) <= Start(y.level, y.n) && Start(y.level, y.n + 1) <= Start(l, n + 1)
    decreases l - y.level
  {
    if y.level == l {
      if y.n < n { StartMonotone(l, y.n + 1, n); }
      if y.n > n { StartMonotone(l, n + 1, y.n); }
    } else {
      assert HangsAt(at, y);
      var p := Parent(y);
      assert y.n == 512 * p.n + y.n % 512;
      Nesting(p.level, p.n, y.n % 512);
      SpanUnder(at, p, l, n, v, w);
    }
  }

  /** The loss inside one entry: what the tables below lose and what the table itself does. */
  lemma {:induction false} EntryLoss(l: int, n: int, v: int, w: int, y: Place)
    requires 2 <= l <= 4 && Start(l - 1, n) <= v < w <= Start(l - 1, n + 1)
    ensures Less(1, l, v, w)(y) == Less(1, l - 1, v, w)(y) + Only(Place(l - 1, n), w - v)(y)
  {
    if y.level == l - 1 && y.n < n { StartMonotone(l - 1, y.n + 1, n); }
    if y.level == l - 1 && y.n > n { StartMonotone(l - 1, n + 1, y.n); }
  }

  /** Tables that lose in the first part of a range, and what hangs under them, are not in the second. */
  lemma {:induction false} BeforeUncut(s: Tabs, l: int, n: int, begin: int, v: int, y: Place)
    requires Closed(s.at) && y in s.at && 2 <= l <= 4 && 1 <= y.level < l && begin <= v &&
             (v == begin || v <= Start(l - 1, n))
    requires Start(l - 1, n) <= Start(y.level, y.n) && Start(y.level, y.n + 1) <= Start(l - 1, n + 1)
    ensures Less(1, l, begin, v)(y) == 0 && !Cut(s, Less(1, l, begin, v), y)
    decreases l - y.level
  {
    StartMonotone(y.level, y.n, y.n + 1);
    var d := Less(1, l, begin, v);
    if y.level == l - 1 {
      if y.level < 3 { UpperKept(s, d, Parent(y)); }
    } else {
      assert HangsAt(s.at, y);
      var p := Parent(y);
      assert y.n == 512 * p.n + y.n % 512;
      Nesting(p.level, p.n, y.n % 512);
      SpanUnder(s.at, y, l - 1, n, Start(y.level, y.n), Start(y.level, y.n + 1));
      ParentInside(p, l - 1, n, Start(y.level, y.n));
      BeforeUncut(s, l, n, begin, v, p);
    }
  }

  lemma {:induction false} ParentInside(p: Place, l: int, n: int, v: int)
    requires 1 <= p.level <= l && Start(l, n) <= v < Start(l, n + 1) &&
             Start(p.level, p.n) <= v < Start(p.level, p.n + 1)
    ensures Start(l, n) <= Start(p.level, p.n) && Start(p.level, p.n + 1) <= Start(l, n + 1)
    decreases l - p.level
  {
    if p.level == l {
      SlotUnique(l, n, v);
      SlotUnique(l, p.n, v);
    } else {
      assert p.n == 512 * (p.n / 512) + p.n % 512;
      Nesting(p.level + 1, p.n / 512, p.n % 512);
      ParentInside(Parent(p), l, n, v);
    }
  }

  lemma {:induction false} LaterChunk(s: Tabs, l: int, n: int, begin: int, v: int, w: int)
    requires Closed(s.at) && Placed0(s.at) && 2 <= l <= 4 && begin <= v && (v == begin || v <= Start(l - 1, n))
    requires Start(l - 1, n) <= v < w <= Start(l - 1, n + 1)
    ensures Later(s, Less(1, l, begin, v), Less(1, l, v, w))
    ensures forall y {:trigger Less(1, l, begin, w)(y)} ::
              Less(1, l, begin, w)(y) == Less(1, l, begin, v)(y) + Less(1, l, v, w)(y)
  {
    forall y | y in s.at && Less(1, l, v, w)(y) != 0
        ensures Less(1, l, begin, v)(y) == 0 && !Cut(s, Less(1, l, begin, v), y) {
      SpanUnder(s.at, y, l - 1, n, v, w);
      BeforeUncut(s, l, n, begin, v, y);
    }
    forall y ensures Less(1, l, begin, w)(y) == Less(1, l, begin, v)(y) + Less(1, l, v, w)(y) {
      StartMonotone(y.level, y.n, y.n + 1);
    }
  }

  ghost predicate Placed0(at: map<Place, Frame>) {
    forall p {:trigger p in at} :: p in at ==> 1 <= p.level <= 4
  }

  class PageTables {
    /** The entries of each table: a frame, or 0 for none. */
    var ents: map<Frame, seq<Frame>>
    var ref: map<Frame, int>
    var avail: seq<Frame>
    const root: Frame
    ghost const frames: set<Frame>
    ghost var at: map<Place, Frame>

    ghost function Tab(): Tabs
      reads this`ref, this`avail, this`at
    {
      Tabs(at, ref, avail)
    }

    /** The tables form a tree of frames of their own, whatever they count. */
    ghost predicate Sound()
      reads this`ents, this`ref, this`avail, this`at
    {
      SoundTables(Tab(), ents, frames, root)
    }

    /** The invariant, except that the existence and the count of table `x` may be wrong. */
    ghost predicate Slack(c: Tally, x: Place)
      reads this`ents, this`ref, this`avail, this`at
    {
      Sound() && Mono(c) && Present(at, c, x) && Counted(at, ref, c, x) && Covered(at, avail, frames)
    }

    ghost predicate Inv(c: Tally)
      reads this`ents, this`ref, this`avail, this`at
    {
      Sound() && Right(Tab(), frames, c)
    }

    /** The same, as a whole: what is inside is taken out only where a proof names `Inside`. */
    ghost predicate Kept(c: Tally)
      reads this`ents, this`ref, this`avail, this`at
    {
      forall look {:trigger Inside(TablesPart, look)} :: Inside(TablesPart, look) ==> Inv(c)
    }

    lemma KeptSame(c: Tally, c': Tally)
      requires Kept(c) && SameCounts(c, c')
      ensures Kept(c')
    {
      assert Inside(TablesPart, true);
      Recount(c, c');
    }

    /** The counts may be rewritten as long as they stay the same page by page. */
    lemma Recount(c: Tally, c': Tally)
      requires Inv(c) && SameCounts(c, c')
      ensures Inv(c')
    {
      MonoSame(c, c');
      forall l, n {:trigger Load(c', l, n)} | 1 <= l <= 3 ensures Load(c', l, n) == Load(c, l, n) {
        SumBumped(c, c', l, 0, 0, 0, Start(l, n), Start(l, n + 1));
      }
      assert forall l, n {:trigger Load(c', l, n)} :: 1 <= l <= 3 ==> Load(c', l, n) == Load(c, l, n);
    }

    /** What an entry says about the table it stands for. */
    lemma EntryValue(f: Frame, j: int, p: Place)
      requires Sound() && p in at && at[p] == f && 2 <= p.level <= 4 && 0 <= j < PT_SIZE
      ensures var x := Place(p.level - 1, 512 * p.n + j);
              && f in ents && |ents[f]| == PT_SIZE
              && (ents[f][j] == 0 <==> x !in at) && (x in at ==> ents[f][j] == at[x])
    {
      assert LinkedAt(at, ents, p) && ents[f][j] == EntryOf(at, p.level - 1, 512 * p.n + j);
    }

    // ----- release -----

    /** Entry j of table t of level l spans the pages of [v, w). */
    ghost predicate EntrySpans(l: int, t: int, f: Frame, j: int, v: int, w: int)
      reads this`at
    {
      && 2 <= l <= 4 && 0 <= j < PT_SIZE && Place(l, t) in at && at[Place(l, t)] == f
      && Start(l - 1, 512 * t + j) <= v < w <= Start(l - 1, 512 * t + j + 1)
    }

    /** A table counts `pages` less, and is unlinked and given back when that leaves nothing. */
    method Uncount(f: Frame, j: int, pages: int, ghost p: Place)
      requires Sound() && p in at && at[p] == f && 2 <= p.level <= 4 && 0 <= j < PT_SIZE && pages > 0
      requires Place(p.level - 1, 512 * p.n + j) in at
      modifies this`ents, this`ref, this`avail, this`at
      ensures Sound() && Leaves(old(at), old(ents), at, ents)
      ensures Shrunk(old(Tab()), Tab(), Only(Place(p.level - 1, 512 * p.n + j), pages))
    {
      EntryValue(f, j, p);
      var g := ents[f][j];
      if ref[g] == pages {
        Unlink(f, j, g, p);
      } else {
        assert Alone(at, Place(p.level - 1, 512 * p.n + j));
        UnprunedShrunk(Tab(), Tabs(at, ref[g := ref[g] - pages], avail), Place(p.level - 1, 512 * p.n + j), pages);
        ref := ref[g := ref[g] - pages];
      }
    }

    /** The count reaches zero: the entry is cleared and the frame of the table is given back. */
    method Unlink(f: Frame, j: int, g: Frame, ghost p: Place)
      requires Sound() && p in at && at[p] == f && 2 <= p.level <= 4 && 0 <= j < PT_SIZE
      requires var x := Place(p.level - 1, 512 * p.n + j); x in at && at[x] == g && ref[g] > 0
      modifies this`ents, this`ref, this`avail, this`at
      ensures Sound() && Leaves(old(at), old(ents), at, ents)
      ensures Shrunk(old(Tab()), Tab(), Only(Place(p.level - 1, 512 * p.n + j), old(ref)[g]))
    {
      ghost var x, s, k := Place(p.level - 1, 512 * p.n + j), Tab(), ref[g];
      ghost var at' := map y | y in at && !Cut(s, Only(x, k), y) :: at[y];
      Pruned(s, Tabs(at', ref[g := 0], [g] + avail), ents, frames, root, p, j);
      ref := ref[g := 0];
      ents := ents[f := ents[f][j := 0]];
      avail := [g] + avail;
      at := at';
    }

    /** The body of the release loops. */
    method ReleaseEntry(l: int, f: Frame, j: int, v: int, w: int, ghost t: int)
      requires Sound() && EntrySpans(l, t, f, j, v, w)
      modifies this`ents, this`ref, this`avail, this`at
      ensures Sound() && Leaves(old(at), old(ents), at, ents)
      ensures Shrunk(old(Tab()), Tab(), Less(1, l, v, w))
      decreases l, 0
    {
      EntryValue(f, j, Place(l, t));
      var g := ents[f][j];
      if g != 0 {
        if l > 2 {
          Release(l - 1, g, v, w, 512 * t + j);
        } else {
          ShrunkNot(Tab(), Less(1, l - 1, v, w));
        }
        ReleaseTable(l, f, j, v, w, t, old(Tab()), old(ents));
      } else {
        NothingThere(l, 512 * t + j, v, w);
      }
    }

    /** An entry without a table has nothing under it that could lose anything. */
    lemma NothingThere(l: int, n: int, v: int, w: int)
      requires Sound() && 2 <= l <= 4 && Start(l - 1, n) <= v < w <= Start(l - 1, n + 1) && Place(l - 1, n) !in at
      ensures Shrunk(Tab(), Tab(), Less(1, l, v, w))
    {
      var d := Less(1, l, v, w);
      forall y | y in at ensures d(y) == 0 {
        if d(y) != 0 { SpanUnder(at, y, l - 1, n, v, w); }
      }
      ShrunkNot(Tab(), d);
    }

    /** The table of an entry, after the tables below it. */
    method ReleaseTable(l: int, f: Frame, j: int, v: int, w: int, ghost t: int, ghost s: Tabs, ghost ents0: map<Frame,
                        seq<Frame>>)
      requires Sound() && EntrySpans(l, t, f, j, v, w) && Place(l - 1, 512 * t + j) in at
      requires Leaves(s.at, ents0, at, ents) && Shrunk(s, Tab(), Less(1, l - 1, v, w))
      modifies this`ents, this`ref, this`avail, this`at
      ensures Sound() && Leaves(s.at, ents0, at, ents) && Shrunk(s, Tab(), Less(1, l, v, w))
    {
      ghost var n, s1, e1 := 512 * t + j, Tab(), ents;
      Uncount(f, j, w - v, Place(l, t));
      LeavesTrans(s.at, ents0, s1.at, e1, at, ents);
      EntryShrunk(s, s1, Tab(), l, n, v, w);
    }

    /**
     pt_release_pml2, pt_release_pml3 and pt_release_pml4, for any range: each existing table below level
     `l` counts the pages of the range in its span less, and goes away exactly when that leaves nothing.
     */
    method Release(l: int, f: Frame, begin: int, end: int, ghost t: int)
      requires Sound() && 2 <= l <= 4 && Place(l, t) in at && at[Place(l, t)] == f &&
               Start(l, t) <= begin <= end <= Start(l, t + 1)
      modifies this`ents, this`ref, this`avail, this`at
      ensures Sound() && Leaves(old(at), old(ents), at, ents)
      ensures Shrunk(old(Tab()), Tab(), Less(1, l, begin, end))
      ensures forall q :: q in old(at) && q.level >= l ==> q in at
      decreases l, 1
    {
      var v := begin;
      var j := Slot(l - 1, begin) % PT_SIZE;
      FirstSlot(l, t, begin, end);
      ghost var s := Tab();
      ShrunkNot(s, Less(1, l, begin, begin));
      while v != end
        invariant begin <= v <= end && AtSlot(l, t, j, v, end) &&
                  (v == begin || v == end || v == Start(l - 1, 512 * t + j))
        invariant Receding(s, old(ents), l, begin, v) && Place(l, t) in at && at[Place(l, t)] == f
        decreases end - v
      {
        var w := ChunkEnd(l, v, end);
        NextSlot(l, t, j, v, end);
        ReleaseChunk(l, f, j, begin, v, w, t, s, old(ents));
        v, j := w, j + 1;
      }
      assert Inside(TablesPart, true);
      forall q | q in s.at && q.level >= l ensures q in at { UpperKept(s, Less(1, l, begin, end), q); }
    }

    /** The pages of [begin, v) have been released below level l, starting from the tables `s`. */
    ghost predicate Receding(s: Tabs, e0: map<Frame, seq<Frame>>, l: int, begin: int, v: int)
      reads this`ents, this`ref, this`avail, this`at
    {
      forall look {:trigger Inside(TablesPart, look)} :: Inside(TablesPart, look) ==>
        Sound() && Leaves(s.at, e0, at, ents) && Shrunk(s, Tab(), Less(1, l, begin, v))
    }

    method ReleaseChunk(l: int, f: Frame, j: int, ghost begin: int, v: int, w: int, ghost t: int,
                        ghost s: Tabs, ghost ents0: map<Frame, seq<Frame>>)
      requires EntrySpans(l, t, f, j, v, w) && Closed(s.at) && Placed0(s.at) && Place(l, t) in s.at
      requires begin <= v && (v == begin || v == Start(l - 1, 512 * t + j)) && Receding(s, ents0, l, begin, v)
      modifies this`ents, this`ref, this`avail, this`at
      ensures Receding(s, ents0, l, begin, w) && Place(l, t) in at && at[Place(l, t)] == f
      decreases l, 1, 0
    {
      assert Inside(TablesPart, true);
      UpperKept(s, Less(1, l, begin, w), Place(l, t));
      ReleaseEntry(l, f, j, v, w, t);
      ChunkShrunk(s, old(Tab()), Tab(), ents0, old(ents), ents, l, 512 * t + j, begin, v, w);
    }

    // ----- populate -----

    /** A table whose count is right counts the pages of [a, b) once more. */
    method CountIn(g: Frame, pages: int, ghost x: Place, ghost a: int, ghost b: int, ghost c: Tally)
      requires Slack(c, x) && x in at && at[x] == g && 1 <= x.level <= 3 && ref[g] == Load(c, x.level, x.n)
      requires Start(x.level, x.n) <= a < b <= Start(x.level, x.n + 1) && pages == b - a
      requires Mono(Shift(c, x.level, x.level + 1, a, b, 1))
      modifies this`ref
      ensures Inv(Shift(c, x.level, x.level + 1, a, b, 1))
    {
      CountedIn(Tab(), frames, g, x, a, b, c);
      ref := ref[g := ref[g] + pages];
    }

    /** alloc_page_table and the store of the new entry. */
    method MakeTable(f: Frame, j: int, ghost p: Place, ghost x: Place, ghost c: Tally) returns (g: Frame)
      requires Inv(c) && p in at && at[p] == f && 2 <= p.level <= 4 && 0 <= j < PT_SIZE
      requires x == Place(p.level - 1, 512 * p.n + j) && x !in at && avail != []
      modifies this`ents, this`ref, this`avail, this`at
      ensures Slack(c, x) && at == old(at)[x := g] && g in ref && ref[g] == 0 && Load(c, x.level, x.n) == 0
      ensures Leaves(old(at), old(ents), at, ents)
    {
      LoadNonnegative(c, x.level, x.n);
      g := avail[0];
      assert g in avail;
      assert LinkedAt(at, ents, p) && Alone(at, p);
      avail := avail[1..];
      ents := ents[g := Zeroes()];
      ref := ref[g := 0];
      ents := ents[f := ents[f][j := g]];
      at := at[x := g];
      MadeLinked(old(at), old(ents), at, ents, p, j, g, c);
      MadeOwned(old(at), old(avail), x, frames);
      MadeClosed(old(at), p, x, g);
    }

    /**
     One child table counts the pages of [a, b) once more, and is made if it does not exist; that fails exactly
     when no frame is free.
     */
    method Retain(f: Frame, j: int, pages: int, ghost p: Place, ghost x: Place, ghost a: int, ghost b: int,
                  ghost c: Tally) returns (ok: bool, g: Frame)
      requires Inv(c) && p in at && at[p] == f && 2 <= p.level <= 4 && 0 <= j < PT_SIZE && pages == b - a
      requires x == Place(p.level - 1, 512 * p.n + j) && Start(x.level, x.n) <= a < b <= Start(x.level, x.n + 1)
      requires Mono(Shift(c, x.level, x.level + 1, a, b, 1))
      modifies this`ents, this`ref, this`avail, this`at
      ensures ok <==> x in old(at) || old(avail) != []
      ensures ok ==> Inv(Shift(c, x.level, x.level + 1, a, b, 1)) && Extends(old(at), at) && x in at && at[x] == g
      ensures ok ==> at.Keys == old(at).Keys + {x}
      ensures !ok ==> Inv(c) && at == old(at) && |at.Keys| == |frames|
      ensures Leaves(old(at), old(ents), at, ents)
    {
      EntryValue(f, j, p);
      g := ents[f][j];
      if g == 0 {
        if avail == [] {
          FrameCount(at, avail, frames);
          return false, 0;
        }
        g := MakeTable(f, j, p, x, c);
      } else {
        assert x == Place(x.level, x.n) && Load(c, x.level, x.n) == ref[at[x]];
      }
      CountIn(g, pages, x, a, b, c);
      ok := true;
    }

    /** Too few frames for the tables that exist and those that the range needs. */
    ghost predicate Short(before: map<Place, Frame>, l: int, a: int, b: int) {
      |before.Keys + Needed(l, a, b)| > |frames|
    }

    /** The table of an entry counts the pages once more, or there is no frame for it. */
    method Enter(l: int, f: Frame, j: int, v: int, w: int, ghost t: int, ghost x: Place, ghost c: Tally)
                 returns (made: bool, g: Frame)
      requires Kept(c) && EntrySpans(l, t, f, j, v, w) && 0 <= v && w <= LIMIT && Ahead(c, l, v, w) &&
               x == Place(l - 1, 512 * t + j)
      modifies this`ents, this`ref, this`avail, this`at
      ensures Leaves(old(at), old(ents), at, ents) && Extends(old(at), at)
      ensures made ==> Kept(Shift(c, l - 1, l, v, w, 1)) && x in at && at[x] == g && at.Keys == old(at).Keys + {x}
      ensures !made ==> Kept(c) && at == old(at) && Short(at, l, v, w)
    {
      assert Inside(TablesPart, true);
      CountsUp(c, l, v, w);
      ghost var p := Place(l, t);
      assert x.level == l - 1 && x.level + 1 == l && x == Place(p.level - 1, 512 * p.n + j);
      made, g := Retain(f, j, w - v, p, x, v, w, c);
      if !made { NoFrame(at, l, x, v, w); }
    }

    /** The body of the populate loops, up to the rollback. */
    method PopulateEntry(l: int, f: Frame, j: int, v: int, w: int, ghost t: int, ghost c: Tally) returns (r: Outcome)
      requires Kept(c) && Mono(c) && EntrySpans(l, t, f, j, v, w) && 0 <= v && w <= LIMIT && Ahead(c, l, v, w)
      modifies this`ents, this`ref, this`avail, this`at
      ensures Leaves(old(at), old(ents), at, ents) && Extends(old(at), at)
      ensures r == Done ==> Kept(Shift(c, 1, l, v, w, 1)) && Grown(old(at), at, l, v, w)
      ensures r == NoTable ==> Kept(c) && at == old(at)
      ensures r == NoTableBelow ==> Kept(Shift(c, l - 1, l, v, w, 1))
      ensures r != Done ==> Short(old(at), l, v, w)
      decreases l, 0, 2
    {
      ghost var x := Place(l - 1, 512 * t + j);
      var made, g := Enter(l, f, j, v, w, t, x, c);
      if !made {
        return NoTable;
      }
      var below := PopulateBelow(l, g, v, w, x, c, old(at), old(ents));
      r := if below then Done else NoTableBelow;
    }

    /** The tables below the one of the entry, if there are any. */
    method PopulateBelow(l: int, g: Frame, v: int, w: int, ghost x: Place, ghost c: Tally, ghost at0: map<Place,
                         Frame>, ghost e0: map<Frame, seq<Frame>>)
      returns (ok: bool)
      requires Kept(Shift(c, l - 1, l, v, w, 1)) && Mono(c) && 2 <= l <= 4 && x.level == l - 1 && x in at && at[x] == g
      requires Start(x.level, x.n) <= v < w <= Start(x.level, x.n + 1) && 0 <= v && w <= LIMIT && Ahead(c, l, v, w)
      requires Extends(at0, at) && at.Keys == at0.Keys + {x} && Leaves(at0, e0, at, ents)
      modifies this`ents, this`ref, this`avail, this`at
      ensures Leaves(at0, e0, at, ents) && Extends(at0, at)
      ensures ok ==> Kept(Shift(c, 1, l, v, w, 1)) && Grown(at0, at, l, v, w)
      ensures !ok ==> Kept(Shift(c, l - 1, l, v, w, 1)) && Short(at0, l, v, w)
      decreases l, 0, 1
    {
      CountsUp(c, l, v, w);
      CountsLayered(c, l, v, w);
      if l == 2 {
        OneGrown(at0, at, x, v, w);
        KeptSame(Shift(c, l - 1, l, v, w, 1), Shift(c, 1, l, v, w, 1));
        return true;
      }
      ok := PopulateDeeper(l, g, v, w, x, Shift(c, l - 1, l, v, w, 1), at0, e0);
      if ok { KeptSame(Shift(Shift(c, l - 1, l, v, w, 1), 1, l - 1, v, w, 1), Shift(c, 1, l, v, w, 1)); }
    }

    method PopulateDeeper(l: int, g: Frame, v: int, w: int, ghost x: Place, ghost c1: Tally, ghost at0: map<Place,
                          Frame>, ghost e0: map<Frame, seq<Frame>>)
      returns (ok: bool)
      requires Kept(c1) && Mono(c1) && 3 <= l <= 4 && x.level == l - 1 && x in at && at[x] == g
      requires Start(x.level, x.n) <= v < w <= Start(x.level, x.n + 1) && 0 <= v && w <= LIMIT && Ahead(c1, l - 1, v, w)
      requires Extends(at0, at) && at.Keys == at0.Keys + {x} && Leaves(at0, e0, at, ents)
      modifies this`ents, this`ref, this`avail, this`at
      ensures Leaves(at0, e0, at, ents) && Extends(at0, at)
      ensures ok ==> Kept(Shift(c1, 1, l - 1, v, w, 1)) && Grown(at0, at, l, v, w)
      ensures !ok ==> Kept(c1) && Short(at0, l, v, w)
      decreases l, 0, 0
    {
      assert Inside(TablesPart, true);
      assert x == Place(l - 1, x.n);
      ok := Populate(l - 1, g, v, w, x.n, c1);
      if ok {
        EntryGrown(at0, e0, old(at), old(ents), at, ents, l, x.n, v, w);
      } else {
        LeavesTrans(at0, e0, old(at), old(ents), at, ents);
        EntryShort(at0, at, l, x.n, v, w);
      }
    }

    lemma NoFrame(at0: map<Place, Frame>, l: int, x: Place, v: int, w: int)
      requires 2 <= l <= 4 && x.level == l - 1 && Start(l - 1, x.n) <= v < w <= Start(l - 1, x.n + 1)
      requires x !in at0 && |at0.Keys| == |frames|
      ensures Short(at0, l, v, w)
    {
      NeededEntry(l, x.n, v, w);
      SubsetCount(at0.Keys + {x}, at0.Keys + Needed(l, v, w));
    }

    lemma EntryShort(at0: map<Place, Frame>, at1: map<Place, Frame>, l: int, n: int, v: int, w: int)
      requires 2 <= l <= 4 && Start(l - 1, n) <= v < w <= Start(l - 1, n + 1) &&
               at1.Keys == at0.Keys + {Place(l - 1, n)}
      requires Short(at1, l - 1, v, w)
      ensures Short(at0, l, v, w)
    {
      NeededEntry(l, n, v, w);
      assert at1.Keys + Needed(l - 1, v, w) == at0.Keys + Needed(l, v, w);
    }

    /** The rollback when a table could not be made: the range before it is released. */
    method RollBack(l: int, f: Frame, begin: int, v: int, ghost t: int, ghost c: Tally, ghost c1: Tally)
      requires 2 <= l <= 4 && Place(l, t) in at && at[Place(l, t)] == f && Start(l, t) <= begin <= v <= Start(l, t + 1)
      requires Mono(c) && Kept(c1) && SameCounts(Shift(c1, 1, l, begin, v, -1), c)
      modifies this`ents, this`ref, this`avail, this`at
      ensures Kept(c) && Extends(at, old(at)) && Leaves(old(at), old(ents), at, ents)
      ensures forall q :: q in old(at) && q.level >= l ==> q in at
      decreases l, 2
    {
      assert Inside(TablesPart, true);
      Release(l, f, begin, v, t);
      ReleasedRight(old(Tab()), c1, c, 1, l, begin, v);
    }

    /** The rollback when a table further down could not be made: the half-made child goes too. */
    method RollBackChild(l: int, f: Frame, j: int, begin: int, v: int, w: int, ghost t: int, ghost c: Tally,
                         ghost c1: Tally, ghost c2: Tally)
      requires EntrySpans(l, t, f, j, v, w) && Start(l, t) <= begin <= v <= Start(l, t + 1)
      requires Mono(c) && Kept(c1) && Mono(c2) && SameCounts(Shift(c1, 1, l, begin, v, -1), c2) &&
               ChildOf(c, c2, l, v, w)
      modifies this`ents, this`ref, this`avail, this`at
      ensures Kept(c) && Extends(at, old(at)) && Leaves(old(at), old(ents), at, ents)
      decreases l, 2, 0
    {
      RollBack(l, f, begin, v, t, c2, c1);
      PopulatedPresent(c2, l - 1, 512 * t + j, v);
      DropChild(l, f, j, v, w, t, c2, c, old(at), old(ents));
    }

    /** Where all levels counted the pages, a release leaves the counts right. */
    lemma ReleasedRight(s: Tabs, c: Tally, c': Tally, lo: int, hi: int, a: int, b: int)
      requires Sound() && Right(s, frames, c) && Mono(c') && SameCounts(Shift(c, lo, hi, a, b, -1), c') && a <= b &&
               hi <= 4
      requires Shrunk(s, Tab(), Less(lo, hi, a, b))
      ensures Inv(c')
    {
      ShiftFollows(s, frames, c, c', lo, hi, a, b);
      ShrunkRight(s, Tab(), frames, Less(lo, hi, a, b), c, c');
    }

    lemma PopulatedPresent(c: Tally, l: int, n: int, v: int)
      requires Kept(c) && 1 <= l <= 3 && Start(l, n) <= v < Start(l, n + 1) && c(l, v) > 0
      ensures Place(l, n) in at
    {
      assert Inside(TablesPart, true);
      LoadPositive(c, l, n, v);
    }

    method DropChild(l: int, f: Frame, j: int, v: int, w: int, ghost t: int, ghost c2: Tally, ghost c: Tally,
                     ghost at0: map<Place, Frame>, ghost e0: map<Frame, seq<Frame>>)
      requires EntrySpans(l, t, f, j, v, w) && Kept(c2) && Place(l - 1, 512 * t + j) in at && Mono(c) &&
               ChildOf(c, c2, l, v, w)
      requires Extends(at, at0) && Leaves(at0, e0, at, ents)
      modifies this`ents, this`ref, this`avail, this`at
      ensures Kept(c) && Extends(at, at0) && Leaves(at0, e0, at, ents)
    {
      assert Inside(TablesPart, true);
      Uncount(f, j, w - v, Place(l, t));
      LeavesTrans(at0, e0, old(at), old(ents), at, ents);
      OnlyLess(old(Tab()), Tab(), l, 512 * t + j, v, w);
      ReleasedRight(old(Tab()), c2, c, l - 1, l, v, w);
    }

    /** One entry is populated, or everything from `begin` on is rolled back. */
    method PopulateStep(l: int, f: Frame, j: int, begin: int, v: int, w: int,
                        ghost t: int, ghost c: Tally, ghost c0: Tally, ghost c': Tally, ghost before: map<Place,
                            Frame>) returns (ok: bool)
      requires Inv(c0) && EntrySpans(l, t, f, j, v, w) && 0 <= v && w <= LIMIT && Ahead(c0, l, v, w)
      requires Start(l, t) <= begin <= v <= Start(l, t + 1) && Mono(c) && Present(before, c, NOWHERE) &&
               Extends(before, at)
      requires Undoes(c, c0, l, begin, v, w)
      requires Mono(c') && SameCounts(Shift(c0, 1, l, v, w, 1), c')
      modifies this`ents, this`ref, this`avail, this`at
      ensures Leaves(old(at), old(ents), at, ents)
      ensures ok ==> Inv(c') && Grown(old(at), at, l, v, w)
      ensures !ok ==> Inv(c) && at == before && Short(old(at), l, v, w)
      decreases l, 3
    {
      var r := PopulateEntry(l, f, j, v, w, t, c0);
      assert Inside(TablesPart, true);
      if r != Done {
        ghost var mid, e1 := at, ents;
        if r == NoTable {
          RollBack(l, f, begin, v, t, c, c0);
        } else {
          ghost var c1 := Shift(c0, l - 1, l, v, w, 1);
          RollBackChild(l, f, j, begin, v, w, t, c, c1, Shift(c1, 1, l, begin, v, -1));
        }
        Restored(before, mid, at, c);
        LeavesTrans(old(at), old(ents), mid, e1, at, ents);
        return false;
      }
      Recount(Shift(c0, 1, l, v, w, 1), c');
      return true;
    }

    /**
     pt_populate_pml2, pt_populate_pml3 and pt_populate_pml4: tables below level `l` count the pages of
     the range once more and exactly the tables on its paths exist too, or nothing has changed and the
     frames were too few for them.
     */
    method Populate(l: int, f: Frame, begin: int, end: int, ghost t: int, ghost c: Tally) returns (ok: bool)
      requires Kept(c) && Mono(c) && Present(at, c, NOWHERE) && 2 <= l <= 4 && Place(l, t) in at && at[Place(l, t)] == f
      requires Start(l, t) <= begin <= end <= Start(l, t + 1) && 0 <= begin && end <= LIMIT && Ahead(c, l, begin, end)
      modifies this`ents, this`ref, this`avail, this`at
      ensures Leaves(old(at), old(ents), at, ents)
      ensures ok ==> Kept(Shift(c, 1, l, begin, end, 1)) && Grown(old(at), at, l, begin, end)
      ensures !ok ==> Kept(c) && at == old(at) && Short(at, l, begin, end)
      decreases l, 5
    {
      var v := begin;
      var j := Slot(l - 1, begin) % PT_SIZE;
      FirstSlot(l, t, begin, end);
      NotYet(c, l, begin);
      while v != end
        invariant begin <= v <= end && AtSlot(l, t, j, v, end) && Place(l, t) in at && at[Place(l, t)] == f
        invariant Underway(old(at), old(ents), c, l, begin, v)
        decreases end - v
      {
        var w := ChunkEnd(l, v, end);
        NextSlot(l, t, j, v, end);
        var done := PopulateChunk(l, f, j, begin, v, w, end, t, c, old(at), old(ents));
        if !done {
          return false;
        }
        v, j := w, j + 1;
      }
      assert Inside(TablesPart, true);
      ok := true;
    }

    /** The pages of [begin, v) are populated below level l, starting from the tables `at0`. */
    ghost predicate Underway(at0: map<Place, Frame>, e0: map<Frame, seq<Frame>>, c: Tally, l: int, begin: int, v: int)
      reads this`ents, this`ref, this`avail, this`at
    {
      forall look {:trigger Inside(TablesPart, look)} :: Inside(TablesPart, look) ==>
        Kept(Shift(c, 1, l, begin, v, 1)) && Grown(at0, at, l, begin, v) && Leaves(at0, e0, at, ents)
    }

    lemma NotYet(c: Tally, l: int, begin: int)
      requires Kept(c)
      ensures Underway(at, ents, c, l, begin, begin)
    {
      assert Inside(TablesPart, true);
      CountsJoin(c, l, begin, begin, begin, 1);
      Recount(c, Shift(c, 1, l, begin, begin, 1));
      assert Needed(l, begin, begin) == {};
    }

    method PopulateChunk(l: int, f: Frame, j: int, begin: int, v: int, w: int, ghost end: int,
                         ghost t: int, ghost c: Tally, ghost at0: map<Place, Frame>, ghost e0: map<Frame,
                             seq<Frame>>) returns (ok: bool)
      requires Mono(c) && Ahead(c, l, begin, end) && 0 <= begin <= v < w <= end <= LIMIT &&
               EntrySpans(l, t, f, j, v, w) && Start(l, t) <= begin
      requires v <= Start(l, t + 1) && Present(at0, c, NOWHERE) && Underway(at0, e0, c, l, begin, v)
      modifies this`ents, this`ref, this`avail, this`at
      ensures ok ==> Underway(at0, e0, c, l, begin, w) && Place(l, t) in at && at[Place(l, t)] == f
      ensures !ok ==> Kept(c) && at == at0 && Short(at0, l, begin, end) && Leaves(at0, e0, at, ents)
      decreases l, 4
    {
      assert Inside(TablesPart, true);
      PopulateCounts(c, l, begin, v, w, end);
      ok := PopulateStep(l, f, j, begin, v, w, t, c, Shift(c, 1, l, begin, v, 1), Shift(c, 1, l, begin, w, 1), at0);
      LeavesTrans(at0, e0, old(at), old(ents), at, ents);
      if ok {
        GrownJoin(at0, old(at), at, l, begin, v, w);
      } else {
        StillShort(at0, old(at), l, begin, v, w, end);
      }
    }

    lemma StillShort(before: map<Place, Frame>, at1: map<Place, Frame>, l: int, begin: int, v: int, w: int, end: int)
      requires begin <= v <= w <= end && Grown(before, at1, l, begin, v) && Short(at1, l, v, w)
      ensures Short(before, l, begin, end)
    {
      NeededJoin(l, begin, v, w);
      NeededJoin(l, begin, w, end);
      SubsetCount(at1.Keys + Needed(l, v, w), before.Keys + Needed(l, begin, end));
    }

    // ----- whole ranges -----

    /** All levels agree with the counts of the pages. */
    ghost predicate InStep(count: int -> int)
      reads this`ents, this`ref, this`avail, this`at
    {
      Kept(Everywhere(count))
    }

    /** The root table is all there is, and every other frame is free. */
    constructor (top: Frame, free: seq<Frame>)
      requires top != 0 && top !in free && 0 !in free && NoDup(free)
      ensures InStep(_ => 0) && at == map[Place(4, 0) := top] && avail == free && root == top
    {
      root, avail := top, free;
      ents, ref := map[top := Zeroes()], map[top := 0];
      frames := {top} + Elements(free);
      at := map[Place(4, 0) := top];
      new;
      ghost var count: int -> int := _ => 0;
      forall l, n | 1 <= l <= 3 ensures Load(Everywhere(count), l, n) == 0 {
        SumZeroes(Everywhere(count), l, Start(l, n), Start(l, n + 1));
      }
      forall f | f in frames && f !in avail ensures Housed(at, f) {
        assert Place(4, 0) in at && at[Place(4, 0)] == f;
      }
    }

    /** The tables that the range needs and that are missing. */
    ghost function Missing(begin: int, end: int): set<Place>
      reads this`at
    {
      Needed(4, begin, end) - at.Keys
    }

    /** There are frames for them. */
    ghost predicate Affords(begin: int, end: int)
      reads this`at, this`avail
    {
      forall look {:trigger Inside(ChangePart, look)} :: Inside(ChangePart, look) ==> |Missing(begin, end)| <= |avail|
    }

    lemma AffordsIf(begin: int, end: int, some: set<Place>)
      requires Needed(4, begin, end) - at.Keys <= some && |some| <= |avail|
      ensures Affords(begin, end)
    {
      SubsetCount(Missing(begin, end), some);
    }

    /**
     __pt_populate_range: the pages count once more, or -ENOMEM and everything is as it was; it succeeds
     exactly when there are frames for the missing tables.
     */
    method PopulateRange(begin: int, end: int, ghost count: int -> int) returns (ok: bool)
      requires InStep(count) && 0 <= begin < end <= LIMIT
      modifies this`ents, this`ref, this`avail, this`at
      ensures ok <==> |old(Missing(begin, end))| <= |old(avail)|
      ensures ok ==>
              InStep(Plus(count, begin, end, 1)) && Extends(old(at), at) &&
              at.Keys == old(at).Keys + Needed(4, begin, end)
      ensures !ok ==> InStep(count) && at == old(at) && SameTables(at, old(ents), ents, old(ref), ref)
      ensures Leaves(old(at), old(ents), at, ents)
    {
      ghost var c := Everywhere(count);
      assert Inside(TablesPart, true);
      RootSpan();
      EverywherePlus(count, begin, end, 1);
      FrameCount(at, avail, frames);
      UnionCount(at.Keys, Needed(4, begin, end));
      ok := Populate(4, root, begin, end, 0, c);
      FrameCount(at, avail, frames);
      if ok {
        KeptSame(Shift(c, 1, 4, begin, end, 1), Everywhere(Plus(count, begin, end, 1)));
      } else {
        Determined(at, old(ents), ents, old(ref), ref, c);
      }
    }

    /** __pt_release_range, for any range of pages. */
    method ReleaseRange(begin: int, end: int)
      requires Sound() && 0 <= begin < end <= LIMIT
      modifies this`ents, this`ref, this`avail, this`at
      ensures Sound() && Shrunk(old(Tab()), Tab(), Less(1, 4, begin, end)) && Leaves(old(at), old(ents), at, ents)
    {
      RootSpan();
      Release(4, root, begin, end, 0);
    }

    lemma StepSound(count: int -> int)
      requires InStep(count)
      ensures Sound() && Right(Tab(), frames, Everywhere(count))
    {
      assert Inside(TablesPart, true);
    }

    lemma StillInStep(s: Tabs, count: int -> int)
      requires Sound() && Tab() == s && Right(s, frames, Everywhere(count))
      ensures InStep(count)
    {
    }

    /** The tables are in step after a release exactly when every page was populated or had no table of level 3. */
    lemma ReleaseInStep(s: Tabs, count: int -> int, begin: int, end: int)
      requires Sound() && Right(s, frames, Everywhere(count)) && begin <= end &&
               Shrunk(s, Tab(), Less(1, 4, begin, end))
      ensures InStep(Taken(count, begin, end)) <==> NoHole(s.at, count, begin, end)
    {
      assert Inside(TablesPart, true);
      ReleaseExact(s, Tab(), frames, count, begin, end);
    }

    /** Releasing a range after it has been populated restores every table, entry and count. */
    method Undo(begin: int, end: int, ghost count: int -> int, ghost s: Tabs, ghost ents0: map<Frame, seq<Frame>>)
      requires InStep(Plus(count, begin, end, 1)) && 0 <= begin < end <= LIMIT
      requires SoundTables(s, ents0, frames, root) && Right(s, frames, Everywhere(count)) && Extends(s.at, at) &&
               Leaves(s.at, ents0, at, ents)
      modifies this`ents, this`ref, this`avail, this`at
      ensures InStep(count) && at == s.at && SameTables(at, ents0, ents, s.ref, ref) && Leaves(s.at, ents0, at, ents)
    {
      ghost var c, mid, e1 := Everywhere(count), at, ents;
      assert Inside(TablesPart, true);
      UndoCounts(count, begin, end);
      ReleaseRange(begin, end);
      ReleasedRight(old(Tab()), Everywhere(Plus(count, begin, end, 1)), c, 1, 4, begin, end);
      Restored(s.at, mid, at, c);
      Determined(at, ents0, ents, s.ref, ref, c);
      LeavesTrans(s.at, ents0, mid, e1, at, ents);
    }

    /** Populate, and release again when what it was for could not be had. */
    method PopulateFor(begin: int, end: int, memory: bool, ghost count: int -> int) returns (ok: bool)
      requires InStep(count) && 0 <= begin < end <= LIMIT
      modifies this`ents, this`ref, this`avail, this`at
      ensures ok <==> memory && old(Affords(begin, end))
      ensures ok ==> InStep(Plus(count, begin, end, 1)) && Extended(old(Tab()), old(ents), Tab(), ents, begin, end)
      ensures !ok ==> InStep(count) && Alike(old(Tab()), old(ents), Tab(), ents)
    {
      assert Inside(TablesPart, true) && Inside(ChangePart, true);
      ok := PopulateRange(begin, end, count);
      if ok && !memory {
        Undo(begin, end, count, old(Tab()), old(ents));
        ok := false;
      }
    }

    lemma SelfSame(count: int -> int)
      requires InStep(count)
      ensures Alike(Tab(), ents, Tab(), ents)
    {
      assert Inside(TablesPart, true);
      Determined(at, ents, ents, ref, ref, Everywhere(count));
    }
  }

  /** The same tables with the same entries and the same counts. */
  ghost predicate Alike(s: Tabs, e: map<Frame, seq<Frame>>, s': Tabs, e': map<Frame, seq<Frame>>) {
    forall look {:trigger Inside(ChangePart, look)} :: Inside(ChangePart, look) ==>
      s'.at == s.at && SameTables(s.at, e, e', s.ref, s'.ref) && Leaves(s.at, e, s'.at, e')
  }

  /**
   The tables on the paths of the range exist too; the new ones of level 1 are empty and the old ones as they
   were.
   */
  ghost predicate Extended(s: Tabs, e: map<Frame, seq<Frame>>, s': Tabs, e': map<Frame, seq<Frame>>, a: int, b: int) {
    forall look {:trigger Inside(ChangePart, look)} :: Inside(ChangePart, look) ==>
      Grown(s.at, s'.at, 4, a, b) && Leaves(s.at, e, s'.at, e')
  }

  lemma AlikeTables(s: Tabs, e: map<Frame, seq<Frame>>, s': Tabs, e': map<Frame, seq<Frame>>)
    requires Alike(s, e, s', e')
    ensures s'.at == s.at
  {
    assert Inside(ChangePart, true);
  }

  lemma ExtendedTables(s: Tabs, e: map<Frame, seq<Frame>>, s': Tabs, e': map<Frame, seq<Frame>>, a: int, b: int)
    requires Extended(s, e, s', e', a, b)
    ensures Grown(s.at, s'.at, 4, a, b)
  {
    assert Inside(ChangePart, true);
  }

  ghost function Plus(count: int -> int, begin: int, end: int, d: int): int -> int {
    v => count(v) + if begin <= v < end then d else 0
  }

  lemma {:induction false} EverywherePlus(count: int -> int, begin: int, end: int, d: int)
    requires Mono(Everywhere(count)) && 0 <= begin < end <= LIMIT
    ensures var c, c' := Everywhere(count), Everywhere(Plus(count, begin, end, d));
            SameCounts(Shift(c, 1, 4, begin, end, d), c') && (d == 1 ==> Mono(c'))
  {
    assert forall v {:trigger count(v)} ::
           0 <= Everywhere(count)(1, v) && (v < 0 || LIMIT <= v ==> Everywhere(count)(1, v) == 0);
  }

  lemma {:induction false} UndoCounts(count: int -> int, begin: int, end: int)
    ensures SameCounts(Shift(Everywhere(Plus(count, begin, end, 1)), 1, 4, begin, end, -1), Everywhere(count))
  {
  }

  ghost function Everywhere(count: int -> int): Tally {
    (l: int, v: int) => count(v)
  }

  lemma {:induction false} RootSpan()
    ensures Start(4, 0) == 0 && Start(4, 1) == LIMIT
  {
    assert Start(4, 1) == Start(3, 512) == Start(2, 262144) == Start(1, 134217728) == Start(0, LIMIT);
    assert Start(4, 0) == Start(3, 0) == Start(2, 0) == Start(1, 0) == Start(0, 0);
  }

  /** Exactly the tables on the paths of [a, b) have been added. */
  ghost predicate Grown(at: map<Place, Frame>, at': map<Place, Frame>, l: int, a: int, b: int) {
    Extends(at, at') && at'.Keys == at.Keys + Needed(l, a, b)
  }

  lemma {:induction false} SubsetCount(a: set<Place>, b: set<Place>)
    requires a <= b
    ensures |a| <= |b|
  {
    assert b == a + (b - a);
  }

  lemma {:induction false} UnionCount(a: set<Place>, b: set<Place>)
    ensures |a + b| == |a| + |b - a|
  {
    assert a + b == a + (b - a);
  }

  lemma {:induction false} MadeClosed(at: map<Place, Frame>, p: Place, x: Place, g: Frame)
    requires Closed(at) && p in at && Parent(x) == p
    ensures Closed(at[x := g])
  {
    var at' := at[x := g];
    forall y | y in at' ensures HangsAt(at', y) {
      if y != x { assert HangsAt(at, y); }
    }
  }

  lemma {:induction false} CountedIn(s: Tabs, frames: set<Frame>, g: Frame, x: Place, a: int, b: int, c: Tally)
    requires Mono(c) && Present(s.at, c, x) && Counted(s.at, s.ref, c, x) && Covered(s.at, s.avail, frames) &&
             Unshared(s.at, s.avail, frames)
    requires x in s.at && s.at[x] == g && 1 <= x.level <= 3 && g in s.ref && s.ref[g] == Load(c, x.level, x.n)
    requires Start(x.level, x.n) <= a < b <= Start(x.level, x.n + 1) && Mono(Shift(c, x.level, x.level + 1, a, b, 1))
    ensures Right(s.(ref := s.ref[g := s.ref[g] + (b - a)]), frames, Shift(c, x.level, x.level + 1, a, b, 1))
  {
    var c' := Shift(c, x.level, x.level + 1, a, b, 1);
    LoadNonnegative(c, x.level, x.n);
    forall m, n | 1 <= m <= 3
      ensures Load(c', m, n) == Load(c, m, n) + if m == x.level && n == x.n then b - a else 0
    {
      LoadShift(c, x.level, a, b, 1, x.n, m, n);
    }
    assert Alone(s.at, x);
  }

  lemma {:induction false} GrownJoin(at0: map<Place, Frame>, at1: map<Place, Frame>, at2: map<Place, Frame>, l: int,
                                     a: int, v: int, b: int)
    requires a <= v <= b && Grown(at0, at1, l, a, v) && Grown(at1, at2, l, v, b)
    ensures Grown(at0, at2, l, a, b)
  {
    NeededJoin(l, a, v, b);
  }

  lemma {:induction false} EntryGrown(at0: map<Place, Frame>, e0: map<Frame, seq<Frame>>, at1: map<Place, Frame>,
                                      e1: map<Frame, seq<Frame>>,
                                      at2: map<Place, Frame>, e2: map<Frame, seq<Frame>>, l: int, n: int, v: int,
                                          w: int)
    requires 2 <= l <= 4 && Start(l - 1, n) <= v < w <= Start(l - 1, n + 1)
    requires Extends(at0, at1) && at1.Keys == at0.Keys + {Place(l - 1, n)} && Leaves(at0, e0, at1, e1)
    requires Grown(at1, at2, l - 1, v, w) && Leaves(at1, e1, at2, e2)
    ensures Grown(at0, at2, l, v, w) && Leaves(at0, e0, at2, e2)
  {
    NeededEntry(l, n, v, w);
    LeavesTrans(at0, e0, at1, e1, at2, e2);
  }

  lemma {:induction false} OneGrown(at0: map<Place, Frame>, at1: map<Place, Frame>, x: Place, v: int, w: int)
    requires x.level == 1 && Start(1, x.n) <= v < w <= Start(1, x.n + 1) && Extends(at0, at1) &&
             at1.Keys == at0.Keys + {x}
    ensures Grown(at0, at1, 2, v, w)
  {
    NeededEntry(2, x.n, v, w);
    assert Needed(1, v, w) == {};
  }

  lemma {:induction false} OnlyLess(s: Tabs, s': Tabs, l: int, n: int, v: int, w: int)
    requires 2 <= l <= 4 && Start(l - 1, n) <= v < w <= Start(l - 1, n + 1) &&
             Shrunk(s, s', Only(Place(l - 1, n), w - v))
    ensures Shrunk(s, s', Less(l - 1, l, v, w))
  {
    var x := Place(l - 1, n);
    forall y | y in s.at ensures Only(x, w - v)(y) == Less(l - 1, l, v, w)(y) { EntryLoss(l, n, v, w, y); }
    ShrunkSame(s, s', Only(x, w - v), Less(l - 1, l, v, w));
  }

  lemma {:induction false} EntryShrunk(s: Tabs, s1: Tabs, s2: Tabs, l: int, n: int, v: int, w: int)
    requires 2 <= l <= 4 && Start(l - 1, n) <= v < w <= Start(l - 1, n + 1)
    requires Shrunk(s, s1, Less(1, l - 1, v, w)) && Shrunk(s1, s2, Only(Place(l - 1, n), w - v))
    ensures Shrunk(s, s2, Less(1, l, v, w))
  {
    forall y ensures Less(1, l, v, w)(y) == Less(1, l - 1, v, w)(y) + Only(Place(l - 1, n), w - v)(y) {
      EntryLoss(l, n, v, w, y);
    }
    UpperKept(s, Less(1, l - 1, v, w), Place(l - 1, n));
    ShrunkTwice(s, s1, s2, Less(1, l - 1, v, w), Only(Place(l - 1, n), w - v), Less(1, l, v, w));
  }

  lemma {:induction false} ChunkShrunk(s: Tabs, s1: Tabs, s2: Tabs, e: map<Frame, seq<Frame>>, e1: map<Frame,
                                       seq<Frame>>, e2: map<Frame, seq<Frame>>,
                                       l: int, n: int, begin: int, v: int, w: int)
    requires Closed(s.at) && Placed0(s.at) && 2 <= l <= 4 && begin <= v && (v == begin || v <= Start(l - 1, n))
    requires Start(l - 1, n) <= v < w <= Start(l - 1, n + 1)
    requires Shrunk(s, s1, Less(1, l, begin, v)) && Shrunk(s1, s2, Less(1, l, v, w))
    requires Leaves(s.at, e, s1.at, e1) && Leaves(s1.at, e1, s2.at, e2)
    ensures Shrunk(s, s2, Less(1, l, begin, w)) && Leaves(s.at, e, s2.at, e2)
  {
    LeavesTrans(s.at, e, s1.at, e1, s2.at, e2);
    LaterChunk(s, l, n, begin, v, w);
    ShrunkTwice(s, s1, s2, Less(1, l, begin, v), Less(1, l, v, w), Less(1, l, begin, w));
  }

  /** Unlinking an emptied table, with all that hangs under it. */
  lemma {:induction false} Pruned(s: Tabs, s': Tabs, ents: map<Frame, seq<Frame>>, frames: set<Frame>, root: Frame,
                                  p: Place, j: int)
    requires SoundTables(s, ents, frames, root) && p in s.at && 2 <= p.level <= 4 && 0 <= j < PT_SIZE
    requires var x := Place(p.level - 1, 512 * p.n + j);
             && x in s.at && s.ref[s.at[x]] > 0
             && s'.at == (map y | y in s.at && !Cut(s, Only(x, s.ref[s.at[x]]), y) :: s.at[y])
             && s'.ref == s.ref[s.at[x] := 0] && s'.avail == [s.at[x]] + s.avail
    ensures var x, ents' := Place(p.level - 1, 512 * p.n + j), ents[s.at[p] := ents[s.at[p]][j := 0]];
            SoundTables(s', ents', frames, root) && Shrunk(s, s', Only(x, s.ref[s.at[x]])) &&
                Leaves(s.at, ents, s'.at, ents')
  {
    var x := Place(p.level - 1, 512 * p.n + j);
    var k := s.ref[s.at[x]];
    assert LinkedAt(s.at, ents, p) && Alone(s.at, p) && Alone(s.at, x);
    assert Emptied(s, Only(x, k), x);
    PrunedShrunk(s, s', x, k);
    PrunedLinked(s, ents, s'.at, p, j, k);
    PrunedClosed(s, Only(x, k), s'.at);
    PrunedUnshared(s, s'.at, frames, x);
  }

  lemma {:induction false} PrunedUnshared(s: Tabs, at': map<Place, Frame>, frames: set<Frame>, x: Place)
    requires Unshared(s.at, s.avail, frames) && x in s.at && x !in at' && Extends(at', s.at)
    ensures Unshared(at', [s.at[x]] + s.avail, frames)
  {
    assert Alone(s.at, x);
    forall q | q in at' ensures Alone(at', q) { assert Alone(s.at, q); }
  }

  lemma {:induction false} PrunedShrunk(s: Tabs, s': Tabs, x: Place, k: int)
    requires x in s.at && s.at[x] in s.ref && s.ref[s.at[x]] == k > 0 && (forall y :: y in s.at ==> s.at[y] in s.ref)
    requires Alone(s.at, x)
    requires s'.at == map y | y in s.at && !Cut(s, Only(x, k), y) :: s.at[y]
    requires s'.ref == s.ref[s.at[x] := 0] && s'.avail == [s.at[x]] + s.avail
    ensures Shrunk(s, s', Only(x, k)) && x !in s'.at
  {
    var d := Only(x, k);
    assert Emptied(s, d, x);
    forall f ensures f in s'.avail <==> f in s.avail || Freed(s, d, f) {
      if y :| Emptied(s, d, y) && s.at[y] == f { assert y == x; }
    }
  }

  lemma {:induction false} UnprunedShrunk(s: Tabs, s': Tabs, x: Place, k: int)
    requires x in s.at && s.at[x] in s.ref && s.ref[s.at[x]] != k && (forall y :: y in s.at ==> s.at[y] in s.ref)
    requires Alone(s.at, x)
    requires s'.at == s.at && s'.ref == s.ref[s.at[x] := s.ref[s.at[x]] - k] && s'.avail == s.avail
    ensures Shrunk(s, s', Only(x, k))
  {
    var d := Only(x, k);
    forall y ensures !Cut(s, d, y) { NoneEmptied(s, d, y); }
  }

  lemma {:induction false} NoneEmptied(s: Tabs, d: Loss, x: Place)
    requires forall y {:trigger Emptied(s, d, y)} :: !Emptied(s, d, y)
    ensures !Cut(s, d, x)
    decreases 4 - x.level
  {
    if x.level < 3 { NoneEmptied(s, d, Parent(x)); }
  }

  /** The same entries and the same counts in every table. */
  ghost predicate SameTables(at: map<Place, Frame>, ents: map<Frame, seq<Frame>>, ents': map<Frame, seq<Frame>>,
                             ref: map<Frame, int>, ref': map<Frame, int>) {
    && (forall p :: p in at && 2 <= p.level ==> at[p] in ents && at[p] in ents' && ents'[at[p]] == ents[at[p]])
    && (forall p :: p in at && 1 <= p.level <= 3 ==> at[p] in ref && at[p] in ref' && ref'[at[p]] == ref[at[p]])
  }

  /** Entries and counts follow from which tables exist and from the page counts. */
  lemma {:induction false} Determined(at: map<Place, Frame>, ents: map<Frame, seq<Frame>>, ents': map<Frame,
                                      seq<Frame>>, ref: map<Frame, int>, ref': map<Frame, int>, c: Tally)
    requires Linked(at, ents) && Linked(at, ents') && Counted(at, ref, c, NOWHERE) && Counted(at, ref', c, NOWHERE)
    ensures SameTables(at, ents, ents', ref, ref')
  {
    forall p | p in at && 2 <= p.level ensures at[p] in ents && at[p] in ents' && ents'[at[p]] == ents[at[p]] {
      assert LinkedAt(at, ents, p) && LinkedAt(at, ents', p);
    }
    forall p | p in at && 1 <= p.level <= 3 ensures ref'[at[p]] == ref[at[p]] {
      assert p == Place(p.level, p.n) && ref[at[p]] == Load(c, p.level, p.n);
    }
  }

  /** The counts and the frames that were never moved leave only one possible set of tables. */
  lemma {:induction false} Restored(at: map<Place, Frame>, mid: map<Place, Frame>, at': map<Place, Frame>, c: Tally)
    requires Present(at, c, NOWHERE) && Present(at', c, NOWHERE) && Extends(at, mid) && Extends(at', mid)
    ensures at' == at
  {
    forall p ensures p in at <==> p in at' {
      assert p == Place(p.level, p.n);
      if 1 <= p.level <= 3 {
        assert p in at <==> Load(c, p.level, p.n) > 0;
      }
    }
  }

  /** The walk stands at page v, in entry j of table t of level l, or has reached the end. */
  ghost predicate AtSlot(l: int, t: int, j: int, v: int, end: int) {
    v < end ==> 0 <= j < PT_SIZE && Start(l - 1, 512 * t + j) <= v < Start(l - 1, 512 * t + j + 1)
  }

  /** MINU of the rest of the entry's span and the rest of the range. */
  function ChunkEnd(l: int, v: int, end: int): int {
    var w := Start(l - 1, Slot(l - 1, v) + 1);
    if w < end then w else end
  }

  lemma {:induction false} FirstSlot(l: int, t: int, begin: int, end: int)
    requires 2 <= l <= 4 && Start(l, t) <= begin <= end <= Start(l, t + 1)
    ensures AtSlot(l, t, Slot(l - 1, begin) % PT_SIZE, begin, end)
  {
    if begin < end {
      SlotBounds(l - 1, begin);
      SlotUnique(l, t, begin);
    }
  }

  lemma {:induction false} NextSlot(l: int, t: int, j: int, v: int, end: int)
    requires 2 <= l <= 4 && AtSlot(l, t, j, v, end) && v < end <= Start(l, t + 1)
    ensures var w := ChunkEnd(l, v, end);
            v < w <= end && w <= Start(l - 1, 512 * t + j + 1) && AtSlot(l, t, j + 1, w, end)
            && (w == end || w == Start(l - 1, 512 * t + j + 1))
  {
    SlotUnique(l - 1, 512 * t + j, v);
    StartMonotone(l - 1, 512 * t + j + 1, 512 * t + j + 2);
  }

  lemma {:induction false} LoadPositive(c: Tally, l: int, n: int, v: int)
    requires Mono(c) && 1 <= l <= 3 && Start(l, n) <= v < Start(l, n + 1) && c(l, v) > 0
    ensures Load(c, l, n) > 0
  {
    SumSplit(c, l, Start(l, n), v, Start(l, n + 1));
    SumSplit(c, l, v, v + 1, Start(l, n + 1));
    SumBelow(c, l, l, Start(l, n), v);
    SumBelow(c, l, l, v + 1, Start(l, n + 1));
    assert Sum(c, l, v, v + 1) == c(l, v) by { assert Sum(c, l, v, v) == 0; }
  }

  lemma {:induction false} LoadNonnegative(c: Tally, l: int, n: int)
    requires Mono(c) && 1 <= l <= 3
    ensures Load(c, l, n) >= 0
  {
    SumBelow(c, l, l, Start(l, n), Start(l, n + 1));
  }

  lemma {:induction false} MadeLinked(at: map<Place, Frame>, ents: map<Frame, seq<Frame>>, at': map<Place, Frame>,
                                      ents': map<Frame, seq<Frame>>,
                   p: Place, j: int, g: Frame, c: Tally)
    requires Mono(c) && Present(at, c, NOWHERE) && Linked(at, ents) && p in at && 2 <= p.level <= 4 && 0 <= j < PT_SIZE
    requires var x := Place(p.level - 1, 512 * p.n + j); x !in at && at' == at[x := g]
    requires (forall q :: q in at ==> at[q] != g) && Alone(at, p) && LinkedAt(at, ents, p)
    requires var e := ents[g := Zeroes()]; ents' == e[at[p] := e[at[p]][j := g]]
    ensures Linked(at', ents')
  {
    var x := Place(p.level - 1, 512 * p.n + j);
    forall q | q in at' && q.level >= 2 ensures LinkedAt(at', ents', q) {
      if q == x {
        assert Load(c, x.level, x.n) == 0 by { LoadNonnegative(c, x.level, x.n); }
        forall i | 0 <= i < PT_SIZE ensures ents'[at'[q]][i] == EntryOf(at', q.level - 1, 512 * q.n + i) {
          EmptyBelow(c, q.level, q.n, i);
        }
      } else {
        assert LinkedAt(at, ents, q);
      }
    }
  }

  lemma {:induction false} MadeOwned(at: map<Place, Frame>, avail: seq<Frame>, x: Place, frames: set<Frame>)
    requires Unshared(at, avail, frames) && Covered(at, avail, frames) && avail != [] && x !in at
    ensures Unshared(at[x := avail[0]], avail[1..], frames) && Covered(at[x := avail[0]], avail[1..], frames)
  {
    var at' := at[x := avail[0]];
    forall q | q in at' ensures Alone(at', q) {
      if q != x { assert Alone(at, q); }
      assert at'[q] == avail[0] <==> q == x;
    }
    assert forall f :: f in avail <==> f == avail[0] || f in avail[1..];
    forall f | f in frames && f !in avail[1..] ensures Housed(at', f) {
      if f == avail[0] {
        assert x in at' && at'[x] == f;
      } else {
        assert Housed(at, f);
        var p :| p in at && at[p] == f;
        assert p in at' && at'[p] == f;
      }
    }
  }
}
