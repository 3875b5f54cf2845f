/**
 Red-black trees with parent links (rbtree.c, rbtree.h).

 The nodes are heap objects that the rotations and the two fix-up loops rewrite in place.
 Every node carries ghost data from which the whole tree can be checked one node at a time:
 a position `pos` that never changes and orders the nodes as an in-order traversal does, an
 open interval (`lo`, `hi`) that holds the positions of its subtree, and its black height.

 The C code writes every case twice, once per side, with `left` and `right` exchanged. Here a
 case is written once for a `Side`.
 */
module RbTree {

  datatype Color = Red | Black

  datatype Side = Left | Right {
    function Other(): Side {
      if Left? then Right else Left
    }
  }

  class Node {
    var left: Node?
    var right: Node?
    var parent: Node?
    var color: Color
    ghost var pos: real
    ghost var lo: real
    ghost var hi: real
    ghost var bh: nat

    constructor ()
      ensures left == null && right == null && parent == null
    {
      left, right, parent := null, null, null;
      color := Red;
      pos, lo, hi, bh := 0.0, 0.0, 0.0, 0;
    }

    function Kid(s: Side): Node?
      reads this`left, this`right
    {
      if s.Left? then left else right
    }

    method SetKid(s: Side, c: Node?)
      modifies this`left, this`right
      ensures Kid(s) == c && Kid(s.Other()) == old(Kid(s.Other()))
    {
      if s.Left? {
        left := c;
      } else {
        right := c;
      }
    }
  }

  /** rb_red: the null link counts as black. */
  predicate IsRed(n: Node?)
    reads {n}`color
  {
    n != null && n.color.Red?
  }

  ghost function Height(n: Node?): nat
    reads {n}`bh
  {
    if n == null then 0 else n.bh
  }

  ghost function Weight(c: Color): nat {
    if c.Black? then 1 else 0
  }

  /** The four nodes a rotation touches: x goes down, y goes up, p is above, c moves from y to x. */
  datatype Quad = Quad(x: Node, y: Node, p: Node?, c: Node?, s: Side, skip: Node?)

  datatype Pair = Pair(a: Node, b: Node)

  /** `node` is linked as the child of `p` on side `s`, or as the root. */
  datatype Attach = Attach(node: Node, p: Node?, s: Side)

  /** `node` leaves the tree from under `pp`; its only child `c` takes its place. */
  datatype Drop = Drop(node: Node, c: Node?, pp: Node?)

  /** `x` leaves its place under `p` to its child `c` and takes the place of `node` under `pp`. */
  datatype Splice = Splice(node: Node, x: Node, p: Node, c: Node?, pp: Node?)

  /** The sequence `t` with every occurrence of `x` taken out. */
  ghost function Without(t: seq<Node>, x: Node): seq<Node> {
    if t == [] then [] else (if t[0] == x then [] else [t[0]]) + Without(t[1..], x)
  }

  lemma WithoutMembers(t: seq<Node>, x: Node)
    ensures x !in Without(t, x)
    ensures forall m :: m in Without(t, x) ==> m in t
    ensures forall m :: m in t && m != x ==> m in Without(t, x)
  {
    if t != [] { WithoutMembers(t[1..], x); }
  }

  /** Sorted by position. */
  ghost predicate Ascending(t: seq<Node>)
    reads t`pos
  {
    forall i, j :: 0 <= i < j < |t| ==> t[i].pos < t[j].pos
  }

  lemma WithoutAscending(t: seq<Node>, x: Node)
    requires Ascending(t)
    ensures Ascending(Without(t, x))
  {
    if t != [] {
      var u := Without(t[1..], x);
      WithoutAscending(t[1..], x);
      WithoutMembers(t[1..], x);
      forall m | m in u ensures t[0].pos < m.pos { assert m in t[1..]; }
      var v := Without(t, x);
      forall i, j | 0 <= i < j < |v| ensures v[i].pos < v[j].pos {
        assert v[j] in u || v == u;
      }
    }
  }

  class Tree {
    var root: Node?
    ghost var nodes: set<Node>

    constructor ()
      ensures Valid() && nodes == {}
    {
      root, nodes := null, {};
    }

    // ----- the invariant, node by node -----

    ghost predicate DownAt(n: Node)
      reads this`nodes, nodes`left, nodes`right, nodes`parent
    {
      && n in nodes
      && (n.left != null ==> n.left in nodes && n.left.parent == n && n.left != n.right)
      && (n.right != null ==> n.right in nodes && n.right.parent == n)
    }

    ghost predicate UpAt(n: Node)
      reads this, nodes`left, nodes`right, nodes`parent
    {
      && n in nodes
      && (n.parent != null ==> n.parent in nodes && (n.parent.left == n || n.parent.right == n))
      && (n.parent == null <==> n == root)
    }

    ghost predicate OrderAt(n: Node)
      reads this`nodes, nodes`left, nodes`right, nodes`pos, nodes`lo, nodes`hi
    {
      && n in nodes
      && n.lo < n.pos < n.hi
      && (n.left != null ==> n.left in nodes && n.lo <= n.left.lo && n.left.hi <= n.pos)
      && (n.right != null ==> n.right in nodes && n.pos <= n.right.lo && n.right.hi <= n.hi)
    }

    ghost predicate Distinct()
      reads this`nodes, nodes`pos
    {
      forall m, n :: m in nodes && n in nodes && m.pos == n.pos ==> m == n
    }

    ghost predicate Shape()
      reads this, nodes`left, nodes`right, nodes`parent, nodes`pos, nodes`lo, nodes`hi
    {
      && (root == null <==> nodes == {})
      && (root != null ==> root in nodes)
      && (forall n {:trigger DownAt(n)} :: n in nodes ==> DownAt(n))
      && (forall n {:trigger UpAt(n)} :: n in nodes ==> UpAt(n))
      && (forall n {:trigger OrderAt(n)} :: n in nodes ==> OrderAt(n))
      && Distinct()
    }

    ghost predicate BalancedAt(n: Node)
      reads this`nodes, nodes`left, nodes`right, nodes`parent, nodes`color, nodes`bh
    {
      && DownAt(n)
      && Height(n.left) == Height(n.right)
      && n.bh == Height(n.left) + Weight(n.color)
    }

    /** No red node has a red child, except that nothing is asked of the node `skip` in either role. */
    ghost predicate RedAt(n: Node, skip: Node?)
      reads this`nodes, nodes`left, nodes`right, nodes`parent, nodes`color
    {
      && DownAt(n)
      && (n != skip && n.color.Red? ==>
            (n.left == skip || !IsRed(n.left)) && (n.right == skip || !IsRed(n.right)))
    }

    ghost predicate Balanced(except: Node?)
      reads this`nodes, nodes`left, nodes`right, nodes`parent, nodes`color, nodes`bh
    {
      forall n {:trigger BalancedAt(n)} :: n in nodes && n != except ==> BalancedAt(n)
    }

    ghost predicate RedRule(skip: Node?)
      reads this`nodes, nodes`left, nodes`right, nodes`parent, nodes`color
    {
      forall n {:trigger RedAt(n, skip)} :: n in nodes ==> RedAt(n, skip)
    }

    ghost predicate Valid()
      reads this, nodes
    {
      Shape() && Balanced(null) && RedRule(null) && !IsRed(root)
    }

    // ----- rotations -----

    /** What a rotation towards `s` does to the links and the intervals. */
    twostate predicate Rotated(k: Quad)
      reads this, nodes
    {
      var Quad(x, y, p, c, s, skip) := k;
      && nodes == old(nodes)
      && x in nodes && y in nodes && (p != null ==> p in nodes) && (c != null ==> c in nodes)
      && y.parent == p && x.parent == y && (c != null ==> c.parent == x)
      && root == (if p == null then y else old(root))
      && (p != null ==> p.left == (if old(p.left) == x then y else old(p.left)))
      && (p != null ==> p.right == (if old(p.left) == x then old(p.right) else y))
      && x.Kid(s) == old(x.Kid(s)) && x.Kid(s.Other()) == c
      && y.Kid(s) == x && y.Kid(s.Other()) == old(y.Kid(s.Other()))
      && (c != null ==> unchanged(c`left, c`right))
      && (p != null ==> unchanged(p`parent))
      && (forall n {:trigger n.left} {:trigger n.right} {:trigger n.parent} ::
            n in nodes && n != x && n != y && n != p && n != c ==> unchanged(n`left, n`right, n`parent))
    }

    twostate predicate Reordered(k: Quad)
      reads this, nodes
    {
      var Quad(x, y, p, c, s, skip) := k;
      && nodes == old(nodes) && x in nodes && y in nodes
      && y.lo == old(x.lo) && y.hi == old(x.hi)
      && x.lo == (if s.Left? then old(x.lo) else y.pos)
      && x.hi == (if s.Left? then y.pos else old(x.hi))
      && (forall n {:trigger n.lo} {:trigger n.hi} :: n in nodes && n != x && n != y ==> unchanged(n`lo, n`hi))
      && (forall n {:trigger n.pos} :: n in nodes ==> unchanged(n`pos))
    }

    ghost predicate Rotatable(k: Quad)
      reads this, nodes
    {
      && Shape() && k.x in nodes && k.y in nodes
      && k.x.Kid(k.s.Other()) == k.y && k.y.Kid(k.s) == k.c && k.x.parent == k.p
    }

    twostate lemma RotatedDown(k: Quad)
      requires old(Rotatable(k)) && Rotated(k)
      ensures forall n :: n in nodes ==> DownAt(n)
    {
      var Quad(x, y, p, c, s, skip) := k;
      assert old(DownAt(x)) && old(DownAt(y)) && old(UpAt(x));
      assert p != null ==> old(DownAt(p));
      assert c != null ==> old(DownAt(c));
      forall n | n in nodes ensures DownAt(n) {
        assert old(DownAt(n));
      }
    }

    twostate lemma RotatedUp(k: Quad)
      requires old(Rotatable(k)) && Rotated(k)
      ensures forall n :: n in nodes ==> UpAt(n)
    {
      var Quad(x, y, p, c, s, skip) := k;
      assert old(DownAt(x)) && old(DownAt(y)) && old(UpAt(x)) && old(UpAt(y));
      assert p != null ==> old(DownAt(p)) && old(UpAt(p));
      assert c != null ==> old(UpAt(c));
      forall n | n in nodes ensures UpAt(n) {
        assert old(UpAt(n));
      }
    }

    twostate lemma RotatedOrder(k: Quad)
      requires old(Rotatable(k)) && Rotated(k) && Reordered(k)
      ensures forall n :: n in nodes ==> OrderAt(n)
    {
      var Quad(x, y, p, c, s, skip) := k;
      assert old(DownAt(x)) && old(DownAt(y)) && old(UpAt(x)) && old(OrderAt(x)) && old(OrderAt(y));
      assert p != null ==> old(DownAt(p));
      assert OrderAt(x);
      assert OrderAt(y);
      forall n | n in nodes && n != x && n != y ensures OrderAt(n) {
        assert old(DownAt(n)) && old(OrderAt(n));
      }
    }

    lemma QuadApart(k: Quad)
      requires Rotatable(k)
      ensures k.x != k.y && k.c != k.x && k.c != k.y && k.p != k.x && k.p != k.y && (k.c != null ==> k.c != k.p)
      ensures (k.p != null ==> k.p in nodes) && (k.c != null ==> k.c in nodes)
    {
      assert DownAt(k.x) && UpAt(k.x) && OrderAt(k.x) && DownAt(k.y) && OrderAt(k.y);
      assert k.p != null ==> DownAt(k.p) && OrderAt(k.p);
      assert k.c != null ==> OrderAt(k.c);
    }

    /** The link of `p` that held `x` (or the root) now holds `y`. */
    method Replace(p: Node?, x: Node, y: Node?)
      modifies this`root, {p}`left, {p}`right
      ensures root == if p == null then y else old(root)
      ensures p != null ==> p.left == (if old(p.left) == x then y else old(p.left))
      ensures p != null ==> p.right == (if old(p.left) == x then old(p.right) else y)
    {
      if p != null {
        if p.left == x {
          p.left := y;
        } else {
          p.right := y;
        }
      } else {
        root := y;
      }
    }

    /** rb_rotate_left, links only. */
    method Relink(x: Node, s: Side)
      requires var y := x.Kid(s.Other());
               y != null && var c := y.Kid(s);
               x != y && c != x && c != y && x.parent != x && x.parent != y && (c != null ==> c != x.parent)
      modifies this`root
      modifies {x, x.Kid(s.Other()), x.Kid(s.Other()).Kid(s), x.parent}`left
      modifies {x, x.Kid(s.Other()), x.Kid(s.Other()).Kid(s), x.parent}`right
      modifies {x, x.Kid(s.Other()), x.Kid(s.Other()).Kid(s), x.parent}`parent
      ensures var y, p, c := old(x.Kid(s.Other())), old(x.parent), old(x.Kid(s.Other()).Kid(s));
              && y.parent == p && x.parent == y && (c != null ==> c.parent == x)
              && root == (if p == null then y else old(root))
              && (p != null ==> p.left == (if old(p.left) == x then y else old(p.left)))
              && (p != null ==> p.right == (if old(p.left) == x then old(p.right) else y))
              && (c != null ==> unchanged(c`left, c`right))
              && (p != null ==> unchanged(p`parent))
              && x.Kid(s) == old(x.Kid(s)) && x.Kid(s.Other()) == c
              && y.Kid(s) == x && y.Kid(s.Other()) == old(y.Kid(s.Other()))
    {
      var p := x.parent;
      var y := x.Kid(s.Other());
      x.SetKid(s.Other(), y.Kid(s));
      if x.Kid(s.Other()) != null {
        x.Kid(s.Other()).parent := x;
      }
      y.SetKid(s, x);
      y.parent := p;
      Replace(p, x, y);
      x.parent := y;
    }

    /** The links and the intervals of a rotation. */
    method Turn(x: Node, s: Side, ghost skip: Node?)
      requires Shape() && x in nodes && x.Kid(s.Other()) != null
      modifies this`root, nodes`left, nodes`right, nodes`parent, nodes`lo, nodes`hi
      ensures var y := old(x.Kid(s.Other()));
              y != null && var k := Quad(x, y, old(x.parent), old(y.Kid(s)), s, skip); Rotated(k) && Reordered(k)
    {
      assert DownAt(x);
      ghost var y := x.Kid(s.Other());
      QuadApart(Quad(x, y, x.parent, y.Kid(s), s, skip));
      Relink(x, s);
      y.lo, y.hi := x.lo, x.hi;
      if s.Left? { x.hi := y.pos; } else { x.lo := y.pos; }
    }

    method RotateShape(x: Node, s: Side, ghost skip: Node?)
      requires Shape() && x in nodes && x.Kid(s.Other()) != null
      modifies this`root, nodes`left, nodes`right, nodes`parent, nodes`lo, nodes`hi
      ensures Shape()
      ensures var y := old(x.Kid(s.Other())); y != null && Rotated(Quad(x, y, old(x.parent), old(y.Kid(s)), s, skip))
    {
      assert DownAt(x);
      ghost var k := Quad(x, x.Kid(s.Other()), x.parent, x.Kid(s.Other()).Kid(s), s, skip);
      Turn(x, s, skip);
      RotatedDown(k);
      RotatedUp(k);
      RotatedOrder(k);
    }

    /** Black heights after a rotation: y inherits the height of x, so nothing changes above. */
    twostate predicate Reweighed(k: Quad)
      reads this, nodes
    {
      var Quad(x, y, p, c, s, skip) := k;
      && nodes == old(nodes) && x in nodes && y in nodes && (c != null ==> c in nodes)
      && y.bh == old(x.bh) && x.bh == Height(c) + Weight(x.color)
      && (forall n {:trigger n.bh} :: n in nodes && n != x && n != y ==> unchanged(n`bh))
      && (forall n {:trigger n.color} :: n in nodes ==> unchanged(n`color))
    }

    twostate predicate KeptAround(k: Quad)
      reads this, nodes
    {
      && nodes == old(nodes)
      && (forall n {:trigger BalancedAt(n)} ::
            n in nodes && n != k.x && n != k.y && old(BalancedAt(n)) ==> BalancedAt(n))
      && (forall n {:trigger RedAt(n, k.skip)} ::
            n in nodes && n != k.x && n != k.y && n != k.p && old(RedAt(n, k.skip)) ==> RedAt(n, k.skip))
    }

    twostate lemma RotatedKeeps(k: Quad)
      requires old(Rotatable(k)) && Shape() && Rotated(k) && Reweighed(k)
      ensures KeptAround(k)
    {
      var Quad(x, y, p, c, s, skip) := k;
      assert old(DownAt(x)) && old(DownAt(y)) && old(UpAt(x));
      assert p != null ==> old(DownAt(p));
      forall n | n in nodes && n != x && n != y && old(BalancedAt(n)) ensures BalancedAt(n) {
        assert DownAt(n) && old(DownAt(n));
      }
      forall n | n in nodes && n != x && n != y && n != p && old(RedAt(n, skip)) ensures RedAt(n, skip) {
        assert DownAt(n) && old(DownAt(n));
      }
    }

    /** rb_rotate_left (towards Left) and rb_rotate_right (towards Right). */
    method Rotate(x: Node, s: Side, ghost skip: Node?)
      requires Shape() && x in nodes && x.Kid(s.Other()) != null
      modifies this`root, nodes`left, nodes`right, nodes`parent, nodes`lo, nodes`hi, nodes`bh
      ensures Shape()
      ensures var y := old(x.Kid(s.Other()));
              y != null && var k := Quad(x, y, old(x.parent), old(y.Kid(s)), s, skip);
              Rotated(k) && Reweighed(k) && KeptAround(k)
    {
      assert DownAt(x);
      ghost var y := x.Kid(s.Other());
      ghost var k := Quad(x, y, x.parent, y.Kid(s), s, skip);
      RotateShape(x, s, skip);
      y.bh, x.bh := x.bh, Height(k.c) + Weight(x.color);
      RotatedKeeps(k);
    }

    // ----- insertion -----

    /** A red node whose parent may be red too; nothing else is wrong but the colour of the root. */
    ghost predicate PendingRed(n: Node)
      reads this, nodes
    {
      && Shape() && Balanced(null)
      && n in nodes && n.color.Red?
      && RedRule(n) && RedAt(n, null)
      && (IsRed(root) ==> root == n)
    }


    twostate predicate PushedUp(k: Quad)
      reads this, nodes
    {
      var Quad(p, g, u, n, s, skip) := k;
      && u != null && n != null
      && nodes == old(nodes) && root == old(root)
      && n in nodes && p in nodes && g in nodes && u in nodes && p != u && g != p && g != u
      && n.parent == p && p.parent == g && old(p.color.Red? && u.color.Red?)
      && ((g.left == p && g.right == u) || (g.left == u && g.right == p))
      && g.color.Red? && p.color.Black? && u.color.Black?
      && p.bh == old(p.bh) + 1 && u.bh == old(u.bh) + 1 && g.bh == old(g.bh)
      && (forall m {:trigger m.color} {:trigger m.bh} :: m in nodes && m != g && m != p && m != u ==>
          unchanged(m`color, m`bh))
      && (forall m {:trigger m.left} {:trigger m.right} {:trigger m.parent} :: m in nodes ==>
          unchanged(m`left, m`right, m`parent))
    }

    twostate lemma PushedUpBalance(k: Quad)
      requires PushedUp(k) && old(PendingRed(k.c))
      ensures Balanced(null)
    {
      var Quad(p, g, u, n, s, skip) := k;
      assert old(BalancedAt(g)) && old(BalancedAt(p)) && old(BalancedAt(u)) && old(RedAt(g, n));
      forall m | m in nodes ensures BalancedAt(m) {
        assert old(BalancedAt(m));
      }
    }

    twostate lemma PushedUpRed(k: Quad)
      requires PushedUp(k) && old(PendingRed(k.c))
      ensures RedRule(k.y) && RedAt(k.y, null)
    {
      var Quad(p, g, u, n, s, skip) := k;
      assert old(RedAt(n, null)) && old(DownAt(g));
      forall m | m in nodes ensures RedAt(m, g) {
        assert old(RedAt(m, n));
      }
    }

    /** Red uncle: the red pair moves two levels up. */
    method PushRedUp(n: Node, p: Node, g: Node, u: Node)
      requires PendingRed(n) && n.parent == p && p.parent == g && p.color.Red? && u.color.Red?
      requires p in nodes && g in nodes && u in nodes && p != u && g != p && g != u
      requires (g.left == p && g.right == u) || (g.left == u && g.right == p)
      modifies {p, g, u}`color, {p, u}`bh
      ensures PendingRed(g)
    {
      assert UpAt(n);
      g.color, p.color, u.color := Red, Black, Black;
      p.bh, u.bh := p.bh + 1, u.bh + 1;
      ghost var k := Quad(p, g, u, n, Left, null);
      PushedUpBalance(k);
      PushedUpRed(k);
    }

    /** Only the parent of a pending node can break the red rule. */
    lemma PendingOthers(n: Node)
      requires PendingRed(n)
      ensures forall m :: m in nodes && m != n.parent ==> RedAt(m, null)
    {
      forall m | m in nodes && m != n.parent ensures RedAt(m, null) {
        assert RedAt(m, n) && RedAt(n, null);
      }
    }

    /** The inner grandchild is rotated to the outside: upper and lower change places. */
    method Straighten(n: Node, p: Node, g: Node, s: Side)
      requires PendingRed(n) && n.parent == p && p.parent == g && p.color.Red?
      requires p in nodes && g in nodes && g.Kid(s) == p && p.Kid(s.Other()) == n
      modifies this`root, nodes`left, nodes`right, nodes`parent, nodes`lo, nodes`hi, nodes`bh
      ensures PendingRed(p) && p.parent == n && n.parent == g && g.Kid(s) == n && n.Kid(s) == p
      ensures g.Kid(s.Other()) == old(g.Kid(s.Other()))
    {
      PendingOthers(n);
      assert UpAt(n) && !IsRed(root);
      assert BalancedAt(n) && BalancedAt(p) && RedAt(n, null) && RedAt(p, n) && RedAt(g, n) && DownAt(g);
      Rotate(p, s, null);
      assert DownAt(n) && DownAt(p) && DownAt(g);
      assert BalancedAt(n) && BalancedAt(p);
      forall m | m in nodes ensures RedAt(m, p) {
        if m != n && m != p && m != g {
          assert RedAt(m, null);
        }
      }
    }

    /** After the outer rotation: `t` and its child `g` still have their old colours. */
    ghost predicate Crowned(t: Node, g: Node)
      reads this, nodes
    {
      && Shape() && t in nodes && g in nodes && t.color.Red? && g.color.Black?
      && (t.left == g || t.right == g) && t != g
      && DownAt(g) && Height(g.left) == Height(g.right) && !IsRed(g.left) && !IsRed(g.right)
      && DownAt(t) && Height(if t.left == g then t.right else t.left) == Height(g.left)
      && t.bh == Height(g.left) + 1
      && (forall m {:trigger BalancedAt(m)} :: m in nodes && m != t && m != g ==> BalancedAt(m))
      && (forall m {:trigger RedAt(m, t)} :: m in nodes && m != t && m != g ==> RedAt(m, t))
      && (IsRed(root) ==> root == t)
    }

    twostate predicate ColoursSwapped(k: Pair)
      reads this, nodes
    {
      var Pair(t, g) := k;
      && nodes == old(nodes) && root == old(root) && t in nodes && g in nodes
      && t.color.Black? && g.color.Red? && t.bh == old(t.bh) && g.bh == t.bh - 1
      && (forall m {:trigger m.color} {:trigger m.bh} :: m in nodes && m != g && m != t ==> unchanged(m`color, m`bh))
      && (forall m {:trigger m.left} {:trigger m.right} {:trigger m.parent} :: m in nodes ==>
          unchanged(m`left, m`right, m`parent))
    }

    twostate lemma ColoursSwappedBalance(k: Pair)
      requires old(Crowned(k.a, k.b)) && ColoursSwapped(k)
      ensures Balanced(null)
    {
      assert old(UpAt(k.b));
      forall m | m in nodes ensures BalancedAt(m) {
        assert old(DownAt(m));
        if m != k.a && m != k.b { assert old(BalancedAt(m)); }
      }
    }

    twostate lemma ColoursSwappedRed(k: Pair)
      requires old(Crowned(k.a, k.b)) && ColoursSwapped(k)
      ensures RedRule(null)
    {
      assert old(UpAt(k.b));
      forall m | m in nodes ensures RedAt(m, null) {
        assert old(DownAt(m));
        if m != k.a && m != k.b { assert old(RedAt(m, k.a)); }
      }
    }

    /** The crown turns black and the node it replaced turns red. */
    method SwapColours(t: Node, g: Node)
      requires Crowned(t, g)
      modifies {t, g}`color, {g}`bh
      ensures Valid()
    {
      assert UpAt(g);
      t.color, g.color := Black, Red;
      g.bh := t.bh - 1;
      ColoursSwappedBalance(Pair(t, g));
      ColoursSwappedRed(Pair(t, g));
    }

    /** Black uncle and outer grandchild: one rotation ends the repair. */
    method RotateOuter(n: Node, p: Node, g: Node, s: Side)
      requires PendingRed(n) && n.parent == p && p.parent == g && p.color.Red?
      requires p in nodes && g in nodes && g.Kid(s) == p && p.Kid(s) == n && !IsRed(g.Kid(s.Other()))
      modifies this`root, nodes`left, nodes`right, nodes`parent, nodes`lo, nodes`hi, nodes`color, nodes`bh
      ensures Valid()
    {
      PendingOthers(n);
      assert UpAt(n) && !IsRed(root) && UpAt(g);
      assert BalancedAt(n) && BalancedAt(p) && BalancedAt(g) && RedAt(n, null) && RedAt(p, n) && RedAt(g, n);
      QuadApart(Quad(g, p, g.parent, p.Kid(s.Other()), s.Other(), null));
      ghost var top := g.parent;
      Rotate(g, s.Other(), null);
      assert DownAt(g) && DownAt(p) && (top != null ==> DownAt(top));
      forall m | m in nodes && m != p && m != g ensures RedAt(m, p) {
        assert RedAt(m, null) || m == top;
      }
      SwapColours(p, g);
    }

    ghost function Outside(n: Node): set<Node>
      reads this`nodes, nodes`pos, n`lo, n`hi
    {
      set m | m in nodes && !(n.lo < m.pos < n.hi)
    }

    /** Going up one level leaves strictly fewer nodes outside. */
    lemma ClimbShrinks(n: Node)
      requires Shape() && n in nodes && n.parent != null
      ensures n.parent in nodes && Outside(n.parent) < Outside(n)
    {
      var p := n.parent;
      assert UpAt(n) && OrderAt(n) && OrderAt(p);
      assert p in Outside(n) && p !in Outside(p);
    }

    /** The root is made black. */
    method BlackenRoot()
      requires Shape() && root != null && Balanced(null) && RedRule(root) && RedAt(root, null)
      modifies {root}`color, {root}`bh
      ensures Valid()
    {
      assert UpAt(root);
      if root.color.Red? { root.bh := root.bh + 1; }
      root.color := Black;
      forall m | m in nodes ensures BalancedAt(m) {
        assert old(BalancedAt(m)) && DownAt(m);
      }
      forall m | m in nodes ensures RedAt(m, null) {
        assert old(RedAt(m, root)) && old(RedAt(root, null)) && DownAt(m);
      }
    }

    /** rb_insert without its effect on the sequence. */
    method InsertFix(node: Node)
      requires PendingRed(node)
      modifies this`root, nodes`left, nodes`right, nodes`parent, nodes`lo, nodes`hi, nodes`color, nodes`bh
      ensures Valid()
    {
      var n := node;
      var p := n.parent;
      while IsRed(p)
        invariant n in nodes && p == n.parent && PendingRed(n)
        decreases Outside(n)
      {
        assert UpAt(n) && UpAt(p) && p != root;
        var g := p.parent;
        assert DownAt(g) && UpAt(g);
        var s := if p == g.left then Left else Right;
        var u := g.Kid(s.Other());
        if IsRed(u) {
          ClimbShrinks(n);
          ClimbShrinks(p);
          QuadIrreflexive(g);
          PushRedUp(n, p, g, u);
          n := g;
          p := n.parent;
          continue;
        }
        if n == p.Kid(s.Other()) {
          Straighten(n, p, g, s);
          n, p := p, n;
        }
        RotateOuter(n, p, g, s);
        break;
      }
      ReadyForBlackRoot(n);
      BlackenRoot();
    }

    lemma ReadyForBlackRoot(n: Node)
      requires n in nodes && (Valid() || (PendingRed(n) && !IsRed(n.parent)))
      ensures root != null && RedRule(root) && RedAt(root, null)
    {
      assert UpAt(n) && (Valid() || RedAt(n, null));
      forall m | m in nodes ensures RedAt(m, root) {
        assert RedAt(m, n) || RedAt(m, null);
      }
      assert RedAt(root, null);
    }

    lemma QuadIrreflexive(n: Node)
      requires Shape() && n in nodes
      ensures n.left != n && n.right != n && n.parent != n
    {
      assert OrderAt(n) && UpAt(n);
    }

    // ----- erasure -----

    /** rb_set_color, and what it cannot disturb. */
    method Paint(n: Node, col: Color, ghost skip: Node?)
      requires Shape() && n in nodes
      modifies n`color
      ensures n.color == col
      ensures forall m {:trigger BalancedAt(m)} :: m in nodes && m != n && old(BalancedAt(m)) ==> BalancedAt(m)
      ensures forall m {:trigger RedAt(m, skip)} ::
                m in nodes && m != n && (m != n.parent || col.Black?) && old(RedAt(m, skip)) ==> RedAt(m, skip)
    {
      n.color := col;
      forall m | m in nodes && m != n && old(BalancedAt(m)) ensures BalancedAt(m) {
        assert DownAt(m);
      }
      forall m | m in nodes && m != n && (m != n.parent || col.Black?) && old(RedAt(m, skip)) ensures RedAt(m, skip) {
        assert DownAt(m);
      }
    }

    /** The subtree `c` on side `s` of `p` is one black node short; all else is in order. */
    ghost predicate Short(c: Node?, p: Node?, s: Side)
      reads this, nodes
    {
      && Shape() && RedRule(c) && Balanced(p)
      && (IsRed(root) ==> root == c)
      && (p == null ==> c == root)
      && (p != null ==>
            && p in nodes && DownAt(p) && p.Kid(s) == c
            && Height(p.Kid(s.Other())) == Height(c) + 1
            && p.bh == Height(c) + 1 + Weight(p.color))
    }

    /** The red sibling `b` and the parent have exchanged colours but not yet places. */
    ghost predicate SiblingPainted(c: Node?, p: Node, b: Node, s: Side)
      reads this, nodes
    {
      && Shape() && p in nodes && b in nodes && p != b && p.parent != b && DownAt(p) && DownAt(b) && c != p && c != b
      && p.Kid(s) == c && p.Kid(s.Other()) == b && p.color.Red? && b.color.Black? && !IsRed(c) && !IsRed(b.left) &&
          !IsRed(b.right)
      && Height(b.left) == Height(c) + 1 == Height(b.right) && p.bh == Height(c) + 2
      && (forall m {:trigger BalancedAt(m)} :: m in nodes && m != p && m != b ==> BalancedAt(m))
      && (forall m {:trigger RedAt(m, p)} :: m in nodes && m != p && m != b ==> RedAt(m, p))
      && (IsRed(root) ==> root == p)
    }

    method PaintSibling(c: Node?, p: Node, s: Side) returns (b: Node)
      requires Short(c, p, s) && !IsRed(c) && IsRed(p.Kid(s.Other()))
      modifies nodes`color
      ensures SiblingPainted(c, p, b, s)
    {
      b := p.Kid(s.Other());
      assert UpAt(p) && UpAt(b) && BalancedAt(b) && RedAt(b, c) && RedAt(p, c);
      QuadApart(Quad(p, b, p.parent, b.Kid(s), s, c));
      forall m | m in nodes && m != p && m != b ensures RedAt(m, p) { assert RedAt(m, c); }
      Paint(b, Black, p);
      RedenSkipped(p);
    }

    /** A node that the red rule already skips may turn red. */
    method RedenSkipped(p: Node)
      requires Shape() && p in nodes
      modifies p`color
      ensures p.color.Red?
      ensures forall m {:trigger BalancedAt(m)} :: m in nodes && m != p && old(BalancedAt(m)) ==> BalancedAt(m)
      ensures forall m {:trigger RedAt(m, p)} :: m in nodes && old(RedAt(m, p)) ==> RedAt(m, p)
    {
      p.color := Red;
      forall m | m in nodes && m != p && old(BalancedAt(m)) ensures BalancedAt(m) { assert DownAt(m); }
      forall m | m in nodes && old(RedAt(m, p)) ensures RedAt(m, p) { assert DownAt(m); }
    }

    method RotateSibling(c: Node?, p: Node, b: Node, s: Side)
      requires SiblingPainted(c, p, b, s)
      modifies this`root, nodes`left, nodes`right, nodes`parent, nodes`lo, nodes`hi, nodes`bh
      ensures Short(c, p, s) && !IsRed(p.Kid(s.Other()))
    {
      ghost var pp := p.parent;
      assert UpAt(p) && (pp != null ==> RedAt(pp, p));
      Rotate(p, s, p);
      assert DownAt(p) && DownAt(b) && (pp != null ==> DownAt(pp));
      assert BalancedAt(b) && RedAt(p, c) && RedAt(b, c);
      assert pp != null ==> RedAt(pp, c);
      forall m | m in nodes && m != p && m != b && m != pp ensures RedAt(m, c) {
        assert RedAt(m, p);
      }
    }

    /** A red sibling is rotated up; the new sibling is black and the parent red. */
    method RaiseRedSibling(c: Node?, p: Node, s: Side)
      requires Short(c, p, s) && !IsRed(c) && IsRed(p.Kid(s.Other()))
      modifies this`root, nodes`left, nodes`right, nodes`parent, nodes`lo, nodes`hi, nodes`color, nodes`bh
      ensures Short(c, p, s) && !IsRed(c) && p.color.Red? && !IsRed(p.Kid(s.Other()))
    {
      var b := PaintSibling(c, p, s);
      RotateSibling(c, p, b, s);
    }

    ghost function SideOf(n: Node): Side
      reads n, n.parent
    {
      if n.parent != null && n.parent.left == n then Left else Right
    }

    twostate predicate BlackPushed(k: Quad)
      reads this, nodes
    {
      var Quad(p, b, pp, c, s, skip) := k;
      && nodes == old(nodes) && root == old(root) && p in nodes && b in nodes && p != b && pp != b && pp != p
      && old(Short(c, p, s)) && !IsRed(c) && p.Kid(s.Other()) == b && p.parent == pp
      && old(b.color.Black?) && b.color.Red? && !old(IsRed(b.left)) && !old(IsRed(b.right))
      && p.bh == old(p.bh) - 1 && b.bh == old(b.bh) - 1
      && (forall m {:trigger m.bh} :: m in nodes && m != p && m != b ==> unchanged(m`bh))
      && (forall m {:trigger m.color} :: m in nodes && m != b ==> unchanged(m`color))
      && (forall m {:trigger m.left} {:trigger m.right} {:trigger m.parent} :: m in nodes ==>
          unchanged(m`left, m`right, m`parent))
    }

    twostate lemma BlackPushedBalance(k: Quad)
      requires BlackPushed(k)
      ensures Balanced(k.p)
    {
      var Quad(p, b, pp, c, s, skip) := k;
      assert old(DownAt(p)) && old(BalancedAt(b));
      forall m | m in nodes && m != pp ensures BalancedAt(m) {
        assert old(DownAt(m)) && (m != p ==> old(BalancedAt(m)));
      }
    }

    twostate lemma BlackPushedRed(k: Quad)
      requires BlackPushed(k)
      ensures RedRule(k.x)
    {
      var Quad(p, b, pp, c, s, skip) := k;
      assert old(DownAt(p));
      forall m | m in nodes ensures RedAt(m, p) {
        assert old(RedAt(m, c));
      }
    }

    /** The sibling turns red. */
    method RedenSibling(c: Node?, p: Node, s: Side)
      requires Short(c, p, s) && !IsRed(c)
      requires var b := p.Kid(s.Other()); b != null && b in nodes && !IsRed(b) && !IsRed(b.left) && !IsRed(b.right)
      modifies {p.Kid(s.Other())}`color, {p, p.Kid(s.Other())}`bh
      ensures p.Kid(s.Other()) != null && BlackPushed(Quad(p, p.Kid(s.Other()), p.parent, c, s, null))
    {
      var b := p.Kid(s.Other());
      assert BalancedAt(b);
      QuadApart(Quad(p, b, p.parent, b.Kid(s), s, null));
      b.color := Red;
      p.bh, b.bh := p.bh - 1, b.bh - 1;
    }

    /** A black sibling with black children turns red; the parent's subtree is short now. */
    method PushBlackUp(c: Node?, p: Node, s: Side)
      requires Short(c, p, s) && !IsRed(c)
      requires var b := p.Kid(s.Other()); b != null && b in nodes && !IsRed(b) && !IsRed(b.left) && !IsRed(b.right)
      modifies {p.Kid(s.Other())}`color, {p, p.Kid(s.Other())}`bh
      ensures Short(p, p.parent, SideOf(p))
    {
      assert UpAt(p) && UpAt(p.Kid(s.Other())) && (p.parent != null ==> DownAt(p.parent) && BalancedAt(p.parent));
      RedenSibling(c, p, s);
      ghost var k := Quad(p, p.Kid(s.Other()), p.parent, c, s, null);
      BlackPushedBalance(k);
      BlackPushedRed(k);
    }

    /** The inner nephew `d` and the sibling `b` have exchanged colours but not yet places. */
    ghost predicate NephewPainted(c: Node?, p: Node, b: Node, d: Node, s: Side)
      reads this, nodes
    {
      && Shape() && p in nodes && b in nodes && d in nodes && p != b && p != d && c != b && c != d
      && p.Kid(s) == c && p.Kid(s.Other()) == b && b.Kid(s) == d && DownAt(p) && DownAt(b) && DownAt(d)
      && b.color.Red? && d.color.Black? && !IsRed(c) && !IsRed(d.left) && !IsRed(d.right) && !IsRed(b.Kid(s.Other()))
      && Height(d.left) == Height(c) == Height(d.right) == Height(b.Kid(s.Other()))
      && b.bh == Height(c) + 1 && p.bh == Height(c) + 1 + Weight(p.color)
      && (forall m {:trigger BalancedAt(m)} :: m in nodes && m != p && m != b && m != d ==> BalancedAt(m))
      && (forall m {:trigger RedAt(m, c)} :: m in nodes && m != p && m != b && m != d ==> RedAt(m, c))
      && !IsRed(root) && root != b
    }

    method PaintNephew(c: Node?, p: Node, s: Side) returns (b: Node, d: Node)
      requires Short(c, p, s) && !IsRed(c)
      requires var b := p.Kid(s.Other());
               b != null && b in nodes && !IsRed(b) && IsRed(b.Kid(s)) &&
               !IsRed(b.Kid(s.Other()))
      modifies nodes`color
      ensures NephewPainted(c, p, b, d, s)
    {
      b := p.Kid(s.Other());
      d := b.Kid(s);
      assert BalancedAt(b) && UpAt(b) && BalancedAt(d) && RedAt(d, c) && UpAt(d) && UpAt(p);
      QuadApart(Quad(b, d, p, d.Kid(s.Other()), s.Other(), c));
      Paint(d, Black, c);
      Paint(b, Red, c);
    }

    method RotateNephew(c: Node?, p: Node, b: Node, d: Node, s: Side)
      requires NephewPainted(c, p, b, d, s)
      modifies this`root, nodes`left, nodes`right, nodes`parent, nodes`lo, nodes`hi, nodes`bh
      ensures Short(c, p, s)
      ensures p.Kid(s.Other()) == d && d.Kid(s.Other()) == b
    {
      Rotate(b, s.Other(), c);
      assert DownAt(p) && DownAt(b) && DownAt(d);
      assert BalancedAt(b) && BalancedAt(d);
      assert RedAt(p, c) && RedAt(b, c) && RedAt(d, c);
    }

    /** A red inner nephew is rotated outwards. */
    method StraightenNephew(c: Node?, p: Node, s: Side)
      requires Short(c, p, s) && !IsRed(c)
      requires var b := p.Kid(s.Other());
               b != null && b in nodes && !IsRed(b) && IsRed(b.Kid(s)) &&
               !IsRed(b.Kid(s.Other()))
      modifies this`root, nodes`left, nodes`right, nodes`parent, nodes`lo, nodes`hi, nodes`color, nodes`bh
      ensures Short(c, p, s) && !IsRed(c)
      ensures var b := p.Kid(s.Other()); b != null && b in nodes && !IsRed(b) && IsRed(b.Kid(s.Other()))
    {
      var b, d := PaintNephew(c, p, s);
      RotateNephew(c, p, b, d, s);
    }

    /** The sibling `b` has the colour of the parent, the parent and the outer nephew are black. */
    ghost predicate LoanPainted(c: Node?, p: Node, b: Node, s: Side)
      reads this, nodes
    {
      && Shape() && p in nodes && b in nodes && p != b && p.parent != b && DownAt(p) && DownAt(b)
      && p.Kid(s) == c && p.Kid(s.Other()) == b && p.color.Black? && !IsRed(b.Kid(s.Other()))
      && Height(b.Kid(s)) == Height(c) && Height(b.Kid(s.Other())) == Height(c) + 1
      && p.bh == Height(c) + 1 + Weight(b.color)
      && (forall m {:trigger BalancedAt(m)} :: m in nodes && m != p && m != b ==> BalancedAt(m))
      && (forall m {:trigger RedAt(m, null)} :: m in nodes && m != p && m != b ==> RedAt(m, null))
      && !IsRed(root) && (b.color.Red? ==> p.parent != null && p.parent in nodes && p.parent.color.Black?)
    }

    lemma GrandkidApart(p: Node, b: Node, e: Node)
      requires Shape() && p in nodes && (p.left == b || p.right == b) && b in nodes && (b.left == e || b.right == e)
      ensures e in nodes && e.parent == b && b.parent == p && e != p && e != b && p != b && p.parent != b &&
              p.parent != e
    {
      assert DownAt(p) && DownAt(b) && OrderAt(p) && OrderAt(b) && OrderAt(e) && UpAt(p);
      assert p.parent != null ==> OrderAt(p.parent);
    }

    /** Skipping a black node makes no difference. */
    lemma SkipBlack(c: Node?)
      requires RedRule(c) && !IsRed(c)
      ensures RedRule(null)
    {
      forall m | m in nodes ensures RedAt(m, null) { assert RedAt(m, c); }
    }

    method PaintLoan(c: Node?, p: Node, s: Side) returns (b: Node)
      requires Short(c, p, s) && !IsRed(c)
      requires var b := p.Kid(s.Other()); b != null && b in nodes && !IsRed(b) && IsRed(b.Kid(s.Other()))
      modifies nodes`color, nodes`bh
      ensures LoanPainted(c, p, b, s)
    {
      b := p.Kid(s.Other());
      var e := b.Kid(s.Other());
      GrandkidApart(p, b, e);
      SkipBlack(c);
      assert UpAt(p) && UpAt(b) && BalancedAt(b) && BalancedAt(e) && RedAt(p, null);
      assert p.parent != null ==> RedAt(p.parent, null);
      Paint(b, p.color, null);
      Paint(p, Black, null);
      if e != null {
        Darken(e, null);
      }
    }

    method RotateLoan(c: Node?, p: Node, b: Node, s: Side)
      requires LoanPainted(c, p, b, s)
      modifies this`root, nodes`left, nodes`right, nodes`parent, nodes`lo, nodes`hi, nodes`bh
      ensures Valid()
    {
      ghost var pp := p.parent;
      assert UpAt(p) && (pp != null ==> RedAt(pp, null));
      Rotate(p, s, null);
      assert DownAt(p) && DownAt(b) && (pp != null ==> DownAt(pp));
      assert BalancedAt(p) && BalancedAt(b);
      assert RedAt(p, null) && RedAt(b, null);
      assert pp != null ==> RedAt(pp, null);
    }

    /** A red outer nephew lends its black: the repair ends. */
    method Borrow(c: Node?, p: Node, s: Side)
      requires Short(c, p, s) && !IsRed(c)
      requires var b := p.Kid(s.Other()); b != null && b in nodes && !IsRed(b) && IsRed(b.Kid(s.Other()))
      modifies this`root, nodes`left, nodes`right, nodes`parent, nodes`lo, nodes`hi, nodes`color, nodes`bh
      ensures Valid()
    {
      var b := PaintLoan(c, p, s);
      RotateLoan(c, p, b, s);
    }

    /** A red node turns black and its subtree gains one in height. */
    method Darken(n: Node, ghost skip: Node?)
      requires Shape() && n in nodes && n.color.Red? && BalancedAt(n)
      modifies n`color, n`bh
      ensures n.color.Black? && BalancedAt(n) && n.bh == old(n.bh) + 1
      ensures forall m {:trigger BalancedAt(m)} :: m in nodes && m != n.parent && old(BalancedAt(m)) ==> BalancedAt(m)
      ensures forall m {:trigger RedAt(m, skip)} :: m in nodes && old(RedAt(m, skip)) ==> RedAt(m, skip)
    {
      QuadIrreflexive(n);
      n.color := Black;
      n.bh := n.bh + 1;
      forall m | m in nodes && m != n.parent && old(BalancedAt(m)) ensures BalancedAt(m) {
        assert DownAt(m);
      }
      forall m | m in nodes && old(RedAt(m, skip)) ensures RedAt(m, skip) {
        assert DownAt(m);
      }
    }

    lemma ShortSibling(c: Node?, p: Node, s: Side)
      requires Short(c, p, s)
      ensures var b := p.Kid(s.Other()); b != null && b in nodes && DownAt(b)
      ensures s == if c == p.left then Left else Right
    {
      assert DownAt(p) && DownAt(p.Kid(s.Other()));
    }

    /** The last step of the repair: a red node at the short place turns black. */
    method PayBack(c: Node?, ghost p: Node?, ghost s: Side)
      requires Short(c, p, s) && (IsRed(c) || c == root)
      modifies {c}`color, {c}`bh
      ensures Valid()
    {
      if c != null {
        assert UpAt(c) && (p != null ==> DownAt(p)) && (p != c ==> BalancedAt(c));
        if c.color.Red? {
          Darken(c, c);
        }
        c.color := Black;
        assert p != null ==> BalancedAt(p);
      }
      forall m | m in nodes ensures RedAt(m, null) {
        assert RedAt(m, c);
      }
    }

    /** The sibling of a short subtree is black: either pass the shortage up or settle it. */
    method SettleShort(c: Node?, p: Node, s: Side) returns (settled: bool)
      requires Short(c, p, s) && !IsRed(c) && !IsRed(p.Kid(s.Other()))
      modifies this`root, nodes`left, nodes`right, nodes`parent, nodes`lo, nodes`hi, nodes`color, nodes`bh
      ensures settled ==> Valid()
      ensures !settled ==> root == old(root) && Short(p, p.parent, SideOf(p))
      ensures !settled ==> p.color == old(p.color) && (forall m :: m in nodes ==> unchanged(m`parent, m`lo, m`hi))
    {
      ShortSibling(c, p, s);
      var b := p.Kid(s.Other());
      if !IsRed(b.left) && !IsRed(b.right) {
        PushBlackUp(c, p, s);
        return false;
      }
      if !IsRed(b.Kid(s.Other())) {
        StraightenNephew(c, p, s);
      }
      Borrow(c, p, s);
      return true;
    }

    /** rb_erase_fix. */
    method EraseFix(c: Node?, p: Node?, ghost s: Side)
      requires Short(c, p, s)
      modifies this`root, nodes`left, nodes`right, nodes`parent, nodes`lo, nodes`hi, nodes`color, nodes`bh
      ensures Valid()
    {
      var child, parent := c, p;
      ghost var side := s;
      while !IsRed(child) && child != root
        invariant Short(child, parent, side)
        decreases if !IsRed(child) && child != root then 1 else 0, if parent == null then {} else Outside(parent)
      {
        ShortSibling(child, parent, side);
        var sd := if child == parent.left then Left else Right;
        if parent.parent != null { ClimbShrinks(parent); }
        if IsRed(parent.Kid(sd.Other())) {
          RaiseRedSibling(child, parent, sd);
        }
        var settled := SettleShort(child, parent, sd);
        if settled {
          return;
        }
        side := SideOf(parent);
        child := parent;
        parent := parent.parent;
      }
      PayBack(child, parent, side);
    }

    // ----- ancestors and in-order position -----

    ghost predicate Within(n: Node, m: Node)
      reads n`lo, n`hi, m`pos
    {
      n.lo < m.pos < n.hi
    }

    /** `n` is `m` or one of its ancestors. */
    ghost predicate Above(n: Node, m: Node)
      requires Shape() && m in nodes
      reads this, nodes
      decreases Outside(m)
    {
      n == m || (m.parent != null && (ClimbShrinks(m); Above(n, m.parent)))
    }

    lemma AboveWithin(n: Node, m: Node)
      requires Shape() && m in nodes && Above(n, m)
      ensures n in nodes && n.lo <= m.lo && m.hi <= n.hi && Within(n, m)
      decreases Outside(m)
    {
      assert OrderAt(m);
      if n != m {
        ClimbShrinks(m);
        assert UpAt(m) && OrderAt(m.parent);
        AboveWithin(n, m.parent);
      }
    }

    lemma RootAbove(m: Node)
      requires Shape() && m in nodes
      ensures root != null && Above(root, m)
      decreases Outside(m)
    {
      assert UpAt(m);
      if m != root {
        ClimbShrinks(m);
        RootAbove(m.parent);
      }
    }

    lemma KidAbove(n: Node, m: Node) returns (kid: Node)
      requires Shape() && m in nodes && Above(n, m) && n != m
      ensures kid in nodes && kid.parent == n && Above(kid, m) && (n.left == kid || n.right == kid)
      decreases Outside(m)
    {
      assert UpAt(m);
      ClimbShrinks(m);
      if m.parent == n {
        kid := m;
      } else {
        kid := KidAbove(n, m.parent);
      }
    }

    /** A node whose interval holds the position of `m` is an ancestor of `m`. */
    lemma WithinAbove(n: Node, m: Node)
      requires Shape() && n in nodes && m in nodes && Within(n, m)
      ensures Above(n, m)
      decreases Outside(n)
    {
      assert UpAt(n) && OrderAt(n);
      if n == root {
        RootAbove(m);
      } else {
        var q := n.parent;
        ClimbShrinks(n);
        assert OrderAt(q) && DownAt(q);
        WithinAbove(q, m);
        var a := KidAbove(q, m);
        AboveWithin(a, m);
        assert UpAt(a);
      }
    }

    /** A node in the interval of `n` is `n` or in the interval of the child on its side. */
    lemma Cover(n: Node, m: Node)
      requires Shape() && n in nodes && m in nodes && Within(n, m)
      ensures m.pos < n.pos ==> n.left != null && n.left in nodes && Within(n.left, m)
      ensures m.pos > n.pos ==> n.right != null && n.right in nodes && Within(n.right, m)
    {
      WithinAbove(n, m);
      if n != m {
        var a := KidAbove(n, m);
        AboveWithin(a, m);
        assert UpAt(a) && OrderAt(n) && DownAt(n);
      }
    }

    ghost function Inside(n: Node): set<Node>
      reads this`nodes, nodes`pos, n`lo, n`hi
    {
      set m | m in nodes && Within(n, m)
    }

    lemma DescendShrinks(n: Node)
      requires Shape() && n in nodes
      ensures n.left != null ==> n.left in nodes && Inside(n.left) < Inside(n)
      ensures n.right != null ==> n.right in nodes && Inside(n.right) < Inside(n)
    {
      assert DownAt(n) && OrderAt(n);
      assert n in Inside(n);
      if n.left != null { assert n !in Inside(n.left); }
      if n.right != null { assert n !in Inside(n.right); }
    }

    /** The in-order sequence of the subtree at `n`. */
    ghost function Traverse(n: Node?): seq<Node>
      requires Shape() && (n != null ==> n in nodes)
      reads this, nodes
      decreases n != null, if n == null then {} else Inside(n)
    {
      if n == null then [] else DescendShrinks(n); Traverse(n.left) + [n] + Traverse(n.right)
    }

    ghost function InOrder(): seq<Node>
      requires Shape()
      reads this, nodes
    {
      Traverse(root)
    }

    ghost predicate Lists(t: seq<Node>, s: set<Node>) {
      (forall m :: m in t ==> m in s) && (forall m :: m in s ==> m in t)
    }

    lemma AscendingJoin(t: seq<Node>, n: Node, u: seq<Node>)
      requires Ascending(t) && Ascending(u)
      requires forall m :: m in t ==> m.pos < n.pos
      requires forall m :: m in u ==> n.pos < m.pos
      ensures Ascending(t + [n] + u)
    {
      var v := t + [n] + u;
      forall i, j | 0 <= i < j < |v| ensures v[i].pos < v[j].pos {
        assert i < |t| ==> v[i] in t;
        assert j > |t| ==> v[j] in u;
      }
    }

    /** A subtree is traversed in ascending order, and its nodes are those of its interval. */
    lemma TraverseExact(n: Node?)
      requires Shape() && (n != null ==> n in nodes)
      ensures Ascending(Traverse(n)) && Lists(Traverse(n), if n == null then {} else Inside(n))
      decreases n != null, if n == null then {} else Inside(n)
    {
      if n != null {
        DescendShrinks(n);
        TraverseExact(n.left);
        TraverseExact(n.right);
        assert DownAt(n) && OrderAt(n);
        var t, u := Traverse(n.left), Traverse(n.right);
        forall m | m in t ensures m.pos < n.pos && m in Inside(n) { assert m in Inside(n.left); }
        forall m | m in u ensures n.pos < m.pos && m in Inside(n) { assert m in Inside(n.right); }
        AscendingJoin(t, n, u);
        forall m | m in Inside(n) ensures m in t + [n] + u {
          Cover(n, m);
          if m.pos < n.pos { assert m in Inside(n.left); }
          if m.pos > n.pos { assert m in Inside(n.right); }
          assert m.pos == n.pos ==> m == n;
        }
      }
    }

    lemma InOrderExact()
      requires Shape()
      ensures Ascending(InOrder()) && Lists(InOrder(), nodes)
    {
      TraverseExact(root);
      forall m | m in nodes ensures m in InOrder() {
        RootAbove(m);
        AboveWithin(root, m);
      }
    }

    /** An ascending list is determined by its members. */
    lemma AscendingUnique(t: seq<Node>, u: seq<Node>)
      requires Ascending(t) && Ascending(u) && (forall m :: m in t <==> m in u)
      ensures t == u
    {
      assert t != [] ==> t[0] in t;
      assert u != [] ==> u[0] in u;
      if t != [] {
        assert t[0] in u && u[0] in t;
        assert t[0] == u[0];
        forall m ensures m in t[1..] <==> m in u[1..] {
          assert m in t[1..] <==> m in t && m != t[0];
          assert m in u[1..] <==> m in u && m != u[0];
        }
        AscendingUnique(t[1..], u[1..]);
        assert t == [t[0]] + t[1..] && u == [u[0]] + u[1..];
      }
    }

    /** Whatever lists the nodes in ascending order is the in-order sequence. */
    lemma InOrderIs(t: seq<Node>)
      requires Shape() && Ascending(t) && Lists(t, nodes)
      ensures InOrder() == t
    {
      InOrderExact();
      AscendingUnique(t, InOrder());
    }

    // ----- descending from the root -----

    /** The nodes with a position between `lo` and `hi` are those of the subtree `cur`. */
    ghost predicate Spans(cur: Node?, lo: real, hi: real)
      reads this, nodes
    {
      && (cur != null ==> cur in nodes && lo <= cur.lo && cur.hi <= hi)
      && forall m :: m in nodes && lo < m.pos < hi ==> cur != null && Within(cur, m)
    }

    lemma SpansRoot() returns (lo: real, hi: real)
      requires Shape()
      ensures Spans(root, lo, hi) && forall m :: m in nodes ==> lo < m.pos < hi
    {
      if root == null { return 0.0, 0.0; }
      lo, hi := root.lo, root.hi;
      forall m | m in nodes ensures Within(root, m) {
        RootAbove(m);
        AboveWithin(root, m);
      }
    }

    lemma SpansKids(cur: Node, lo: real, hi: real)
      requires Shape() && Spans(cur, lo, hi)
      ensures lo < cur.pos < hi && Spans(cur.left, lo, cur.pos) && Spans(cur.right, cur.pos, hi)
    {
      assert DownAt(cur) && OrderAt(cur);
      forall m | m in nodes && Within(cur, m)
        ensures m.pos < cur.pos ==> cur.left != null && Within(cur.left, m)
        ensures m.pos > cur.pos ==> cur.right != null && Within(cur.right, m)
      {
        Cover(cur, m);
      }
    }

    // ----- neighbours -----

    /** rb_leftmost. */
    method Leftmost(n: Node) returns (r: Node)
      requires Shape() && n in nodes
      ensures r in nodes && r.left == null && n.lo <= r.lo && r.hi <= n.hi
      ensures forall m :: m in nodes && Within(n, m) ==> r.pos <= m.pos
      ensures r == n || (r.parent != null && r.parent in nodes && r.parent.left == r && n.lo <= r.parent.lo)
    {
      r := n;
      assert OrderAt(r);
      while r.left != null
        invariant r in nodes && n.lo <= r.lo && r.hi <= n.hi
        invariant forall m :: m in nodes && Within(n, m) ==> r.lo < m.pos
        invariant r == n || (r.parent != null && r.parent in nodes && r.parent.left == r && n.lo <= r.parent.lo)
        decreases Inside(r)
      {
        DescendShrinks(r);
        assert DownAt(r) && OrderAt(r) && OrderAt(r.left);
        forall m | m in nodes && Within(n, m) ensures r.left.lo < m.pos {
          if m.pos < r.pos { Cover(r, m); }
        }
        r := r.left;
      }
      forall m | m in nodes && Within(n, m) ensures r.pos <= m.pos {
        if m.pos < r.pos { assert OrderAt(r); Cover(r, m); }
      }
    }

    ghost predicate IsSuccessor(n: Node, r: Node?)
      reads this`nodes, nodes`pos, n`pos, {r}`pos
    {
      if r == null then forall m :: m in nodes ==> m.pos <= n.pos
      else r in nodes && n.pos < r.pos && forall m :: m in nodes && n.pos < m.pos ==> r.pos <= m.pos
    }

    /** rb_next. */
    method Next(node: Node) returns (r: Node?)
      requires Shape() && node in nodes
      ensures IsSuccessor(node, r)
      ensures node.right != null ==>
                && r != null && r in nodes && r.left == null && node.right.lo <= r.lo && r.hi <= node.right.hi
                && (r == node.right || (r.parent != null && r.parent in nodes && r.parent.left == r &&
                    node.right.lo <= r.parent.lo))
    {
      assert DownAt(node) && OrderAt(node);
      if node.right != null {
        r := Leftmost(node.right);
        assert OrderAt(r);
        forall m | m in nodes && node.pos < m.pos ensures r.pos <= m.pos {
          if m.pos < node.hi { Cover(node, m); }
        }
        return;
      }
      var n := node;
      r := n.parent;
      forall m | m in nodes && node.pos < m.pos ensures n.hi <= m.pos {
        if m.pos < n.hi { Cover(n, m); }
      }
      while r != null && r.right == n
        invariant n in nodes && r == n.parent && n.lo < node.pos < n.hi
        invariant forall m :: m in nodes && node.pos < m.pos ==> n.hi <= m.pos
        decreases Outside(n)
      {
        ClimbShrinks(n);
        assert UpAt(n) && OrderAt(r) && OrderAt(n);
        forall m | m in nodes && node.pos < m.pos ensures r.hi <= m.pos {
          if m.pos < r.hi { Cover(r, m); }
        }
        n := r;
        r := r.parent;
      }
      assert UpAt(n);
      if r == null {
        forall m | m in nodes ensures m.pos <= node.pos {
          RootAbove(m);
          AboveWithin(root, m);
        }
      } else {
        assert OrderAt(r) && OrderAt(n);
        forall m | m in nodes && node.pos < m.pos ensures r.pos <= m.pos {
          if m.pos < r.pos { Cover(r, m); }
        }
      }
    }

    // ----- taking a node out -----

    ghost predicate Droppable(k: Drop)
      reads this, nodes
    {
      && Shape() && k.node in nodes && k.node.parent == k.pp
      && ((k.node.left == null && k.node.right == k.c) || (k.node.left == k.c && k.node.right == null))
      && (k.pp == null && k.c == null ==> nodes == {k.node})
    }

    lemma LoneRoot()
      requires Shape() && root != null && root.left == null && root.right == null
      ensures nodes == {root}
    {
      forall m | m in nodes ensures m == root {
        RootAbove(m);
        if m != root {
          var kid := KidAbove(root, m);
        }
      }
    }

    twostate predicate Dropped(k: Drop)
      reads this, nodes
    {
      var Drop(node, c, pp) := k;
      && nodes == old(nodes) - {node}
      && (c != null ==> c in nodes && c.parent == pp) && (pp != null ==> pp in nodes)
      && root == (if pp == null then c else old(root))
      && (pp != null ==> pp.left == if old(pp.left) == node then c else old(pp.left))
      && (pp != null ==> pp.right == if old(pp.left) == node then old(pp.right) else c)
      && (forall n {:trigger n.left} {:trigger n.right} :: n in nodes && n != pp ==> unchanged(n`left, n`right))
      && (forall n {:trigger n.parent} :: n in nodes && n != c ==> unchanged(n`parent))
      && (forall n {:trigger n.lo} {:trigger n.hi} {:trigger n.pos} {:trigger n.color} {:trigger n.bh} ::
            n in nodes ==> unchanged(n`lo, n`hi, n`pos, n`color, n`bh))
    }

    twostate lemma DroppedShape(k: Drop)
      requires old(Droppable(k)) && Dropped(k)
      ensures Shape()
    {
      var Drop(node, c, pp) := k;
      assert old(DownAt(node)) && old(UpAt(node)) && old(OrderAt(node));
      assert pp != null ==> old(DownAt(pp)) && old(OrderAt(pp));
      assert c != null ==> old(UpAt(c));
      forall n | n in nodes ensures DownAt(n) { assert old(DownAt(n)); }
      forall n | n in nodes ensures UpAt(n) { assert old(UpAt(n)); }
      forall n | n in nodes ensures OrderAt(n) { assert old(OrderAt(n)) && old(DownAt(n)); }
    }

    twostate lemma DroppedRed(k: Drop)
      requires old(Droppable(k)) && Dropped(k) && Shape() && old(RedRule(null))
      ensures RedRule(k.c)
      ensures old(k.node.color.Red?) ==> RedRule(null)
    {
      var Drop(node, c, pp) := k;
      assert old(RedAt(node, null)) && old(UpAt(node));
      forall n | n in nodes ensures RedAt(n, c) { assert old(RedAt(n, null)) && DownAt(n); }
      if old(node.color.Red?) {
        forall n | n in nodes ensures RedAt(n, null) { assert old(RedAt(n, null)) && DownAt(n); }
      }
    }

    twostate lemma DroppedBalance(k: Drop)
      requires old(Droppable(k)) && Dropped(k) && Shape() && old(Balanced(null))
      ensures Balanced(if old(k.node.color.Red?) then null else k.pp)
      ensures k.pp != null && old(k.node.color.Black?) ==>
                && old(UpAt(k.node)) && k.pp in nodes
                && var s := if old(k.pp.left == k.node) then Left else Right;
                && k.pp.Kid(s) == k.c
                && Height(k.pp.Kid(s.Other())) == Height(k.c) + 1 && k.pp.bh == Height(k.c) + 1 + Weight(k.pp.color)
    {
      var Drop(node, c, pp) := k;
      assert old(BalancedAt(node)) && old(UpAt(node)) && old(DownAt(node));
      assert pp != null ==> old(BalancedAt(pp)) && old(OrderAt(pp)) && old(OrderAt(node));
      forall n | n in nodes && (old(node.color.Red?) || n != pp) ensures BalancedAt(n) {
        assert old(BalancedAt(n)) && old(DownAt(n)) && DownAt(n);
      }
    }

    /** rb_erase for a node with at most one child, up to the repair. */
    method DropNode(node: Node) returns (p: Node?, c: Node?, ghost s: Side)
      requires Valid() && node in nodes && (node.left == null || node.right == null)
      modifies this, nodes`left, nodes`right, nodes`parent
      ensures nodes == old(nodes) - {node}
      ensures node.color.Red? ==> Valid()
      ensures node.color.Black? ==> Short(c, p, s)
    {
      p := node.parent;
      c := if node.left != null then node.left else node.right;
      ghost var k := Drop(node, c, p);
      assert UpAt(node) && DownAt(node) && OrderAt(node) && RedAt(node, null);
      assert p != null ==> OrderAt(p) && DownAt(p);
      if p == null && c == null { LoneRoot(); }
      s := if p != null && p.left == node then Left else Right;
      if c != null {
        c.parent := p;
      }
      Replace(node.parent, node, c);
      nodes := nodes - {node};
      assert Dropped(k);
      DroppedShape(k);
      DroppedRed(k);
      DroppedBalance(k);
    }

    /** `x` is the in-order successor of `node`, which has two children. */
    ghost predicate Splicable(k: Splice)
      reads this, nodes
    {
      var Splice(node, x, p, c, pp) := k;
      && Shape() && node in nodes && x in nodes && p in nodes && x != node
      && node.left != null && node.right != null && node.parent == pp
      && x.left == null && x.right == c && IsSuccessor(node, x) && node.pos <= x.lo && x.hi <= node.hi
      && (x == node.right ==> p == x)
      && (x != node.right ==> p != node && p != x && p == x.parent && p.left == x && node.pos <= p.lo)
    }

    twostate predicate Spliced(k: Splice)
      reads this, nodes
    {
      var Splice(node, x, p, c, pp) := k;
      && nodes == old(nodes) - {node}
      && x in nodes && p in nodes && (c != null ==> c in nodes && c.parent == p) && (pp != null ==> pp in nodes)
      && old(node.left) != null && old(node.left) in nodes && old(node.left).parent == x
      && x.left == old(node.left) && x.parent == pp
      && (p == x ==> x.right == c)
      && (p != x ==>
          old(node.right) != null && old(node.right) in nodes && x.right == old(node.right) &&
          x.right.parent == x)
      && (p != x ==> p.left == c && p.right == old(p.right))
      && root == (if pp == null then x else old(root))
      && (pp != null ==> pp.left == if old(pp.left) == node then x else old(pp.left))
      && (pp != null ==> pp.right == if old(pp.left) == node then old(pp.right) else x)
      && (forall n {:trigger n.left} {:trigger n.right} :: n in nodes && n != x && n != p && n != pp ==>
          unchanged(n`left, n`right))
      && (forall n {:trigger n.parent} ::
            n in nodes && n != x && n != c && n != x.left && (n != x.right || p == x) ==> unchanged(n`parent))
    }

    /** The intervals after a splice: nothing but `node` lay between `node` and `x`. */
    twostate predicate SplicedIntervals(k: Splice)
      reads this, nodes
    {
      var Splice(node, x, p, c, pp) := k;
      && nodes == old(nodes) - {node} && x in nodes
      && x.lo == old(node.lo) && x.hi == old(node.hi)
      && (forall n {:trigger n.lo} :: n in nodes && n != x ==>
            n.lo == if old(node.pos <= n.lo < x.pos) then x.pos else old(n.lo))
      && (forall n {:trigger n.hi} :: n in nodes && n != x ==> unchanged(n`hi))
      && (forall n {:trigger n.pos} :: n in nodes ==> unchanged(n`pos))
    }

    twostate lemma SplicedDown(k: Splice)
      requires old(Splicable(k)) && Spliced(k)
      ensures forall n :: n in nodes ==> DownAt(n)
    {
      var Splice(node, x, p, c, pp) := k;
      assert old(DownAt(node)) && old(DownAt(x)) && old(DownAt(p)) && old(UpAt(node)) && old(UpAt(x));
      assert pp != null ==> old(DownAt(pp));
      forall n | n in nodes ensures DownAt(n) { assert old(DownAt(n)); }
    }

    twostate lemma SplicedUp(k: Splice)
      requires old(Splicable(k)) && Spliced(k)
      ensures forall n :: n in nodes ==> UpAt(n)
    {
      var Splice(node, x, p, c, pp) := k;
      assert old(DownAt(node)) && old(DownAt(x)) && old(DownAt(p)) && old(UpAt(node)) && old(UpAt(x));
      assert pp != null ==> old(DownAt(pp));
      forall n | n in nodes ensures UpAt(n) { assert old(UpAt(n)); }
    }

    twostate lemma SplicedOrder(k: Splice)
      requires old(Splicable(k)) && Spliced(k) && SplicedIntervals(k)
      ensures forall n :: n in nodes ==> OrderAt(n)
    {
      var Splice(node, x, p, c, pp) := k;
      assert old(DownAt(node)) && old(DownAt(x)) && old(UpAt(node)) && old(OrderAt(node)) && old(OrderAt(x));
      assert pp != null ==> old(DownAt(pp)) && old(OrderAt(pp));
      forall n | n in nodes ensures OrderAt(n) { assert old(DownAt(n)) && old(OrderAt(n)); }
    }

    twostate lemma SplicedRoot(k: Splice)
      requires old(Splicable(k)) && Spliced(k) && SplicedIntervals(k)
      ensures root != null && root in nodes && Distinct()
    {
      assert old(UpAt(k.node));
    }

    twostate lemma SplicedShape(k: Splice)
      requires old(Splicable(k)) && Spliced(k) && SplicedIntervals(k)
      ensures Shape()
    {
      SplicedDown(k);
      SplicedUp(k);
      SplicedOrder(k);
      SplicedRoot(k);
    }

    twostate predicate SplicedColours(k: Splice)
      reads this, nodes
    {
      && nodes == old(nodes) - {k.node} && k.x in nodes
      && k.x.color == old(k.node.color) && k.x.bh == old(k.node.bh)
      && (forall n {:trigger n.color} {:trigger n.bh} :: n in nodes && n != k.x ==> unchanged(n`color, n`bh))
    }

    twostate lemma SplicedRed(k: Splice)
      requires old(Splicable(k)) && Spliced(k) && SplicedColours(k) && Shape() && old(RedRule(null))
      ensures RedRule(k.c)
      ensures old(k.x.color.Red?) ==> RedRule(null)
    {
      var Splice(node, x, p, c, pp) := k;
      assert old(RedAt(node, null)) && old(RedAt(x, null)) && old(RedAt(p, null)) && old(UpAt(node));
      forall n | n in nodes ensures RedAt(n, c) { assert old(RedAt(n, null)) && DownAt(n); }
      if old(x.color.Red?) {
        forall n | n in nodes ensures RedAt(n, null) { assert old(RedAt(n, null)) && DownAt(n); }
      }
    }

    twostate lemma SplicedBalance(k: Splice)
      requires old(Splicable(k)) && Spliced(k) && SplicedColours(k) && Shape() && old(Balanced(null))
      ensures Balanced(if old(k.x.color.Red?) then null else k.p)
      ensures old(k.x.color.Black?) ==>
                && k.p in nodes && var s := if k.p == k.x then Right else Left;
                && k.p.Kid(s) == k.c
                && Height(k.p.Kid(s.Other())) == Height(k.c) + 1 && k.p.bh == Height(k.c) + 1 + Weight(k.p.color)
    {
      var Splice(node, x, p, c, pp) := k;
      assert old(BalancedAt(node)) && old(BalancedAt(x)) && old(BalancedAt(p)) && old(UpAt(node)) && old(UpAt(x));
      forall n | n in nodes && (old(x.color.Red?) || n != p) ensures BalancedAt(n) {
        assert old(BalancedAt(n)) && old(DownAt(n)) && DownAt(n);
      }
    }

    twostate lemma SplicedState(k: Splice)
      requires old(Valid() && Splicable(k) && UpAt(k.node) && UpAt(k.x))
      requires Spliced(k) && SplicedIntervals(k) && SplicedColours(k)
      ensures old(k.x.color.Red?) ==> Valid()
      ensures old(k.x.color.Black?) ==> Short(k.c, k.p, if k.p == k.x then Right else Left)
    {
      assert old(DownAt(k.node));
      SplicedShape(k);
      SplicedRed(k);
      SplicedBalance(k);
    }

    /** The assignments of rb_erase for a node with two children, whose successor is `x`. */
    method TakePlace(node: Node, x: Node) returns (p: Node, c: Node?)
      requires node.left != null && node.right != null && x != node && node.parent != node && node.parent != x
      requires node.left != node && node.left != x && node.left != node.parent && node.right != node &&
               node.left != node.right
      requires x.right != x && x.right != node &&
               (x.right != null ==> x.right != node.parent && x.right != node.left && x.right != node.right)
      requires node.right != node.parent
      requires x != node.right ==>
                 && x.parent != null && x.parent != x && x.parent != node && x.parent != node.left &&
                     x.parent != node.parent
                 && (x.right != null ==> x.parent != x.right)
      modifies this`root, {x, node.left, node.right, x.right, x.parent, node.parent}`left
      modifies {x, node.left, node.right, x.right, x.parent, node.parent}`right
      modifies {x, node.left, node.right, x.right, x.parent, node.parent}`parent, x`color
      ensures c == old(x.right) && p == (if x == old(node.right) then x else old(x.parent)) && x.color == node.color
      ensures (c != null && p != x ==> c.parent == p) && (c != null ==> unchanged(c`left, c`right))
      ensures p == x && c != null ==> unchanged(c`parent)
      ensures x.left == node.left == old(node.left) && node.right == old(node.right) && x.left != null &&
              x.left.parent == x && x.parent == node.parent == old(node.parent)
      ensures unchanged(x.left`left, x.left`right)
      ensures p == x ==> x.right == c
      ensures p != x ==>
              x.right == old(node.right) && x.right != null && x.right.parent == x && p.left == c &&
              unchanged(p`right)
      ensures p != x && p != old(node.right) ==> unchanged(p`parent)
      ensures p != x && p != old(node.right) ==> unchanged(old(node.right)`left, old(node.right)`right)
      ensures var pp := old(node.parent);
              && root == (if pp == null then x else old(root))
              && (pp != null ==> pp.left == if old(pp.left) == node then x else old(pp.left))
              && (pp != null ==> pp.right == if old(pp.left) == node then old(pp.right) else x)
              && (pp != null ==> unchanged(pp`parent))
    {
      c := x.right;
      if x == node.right {
        p := x;
        x.left := node.left;
        x.parent, x.color := node.parent, node.color;
        x.left.parent := x;
      } else {
        p := x.parent;
        x.left, x.right, x.parent, x.color := node.left, node.right, node.parent, node.color;
        p.left := c;
        if c != null {
          c.parent := p;
        }
        x.left.parent := x;
        x.right.parent := x;
      }
      Replace(node.parent, node, x);
    }

    /** The fields of the nodes a splice writes to, without the rest of the tree. */
    ghost predicate SpliceFields(k: Splice)
      reads this, nodes
    {
      var Splice(node, x, p, c, pp) := k;
      && node in nodes && x in nodes && p in nodes && node != x && p != node && pp != node && pp != x && p != pp
      && (pp != null ==> pp in nodes) && node.parent == pp
      && node.left != null && node.right != null && node.left in nodes && node.right in nodes && node.left != node.right
      && node.left != node && node.left != x && node.left != pp && node.left != p && node.right != node &&
          node.right != pp
      && x.right == c && c != x && c != node
      && (c != null ==> c in nodes && c.parent == x && c != pp && c != node.left && c != node.right && c != p)
      && (if x == node.right then p == x && x.parent == node else p != x && p == x.parent)
    }

    lemma SpliceApart(k: Splice)
      requires Splicable(k)
      ensures SpliceFields(k)
    {
      var Splice(node, x, p, c, pp) := k;
      assert DownAt(node) && UpAt(node) && OrderAt(node) && DownAt(x) && OrderAt(x) && OrderAt(p) && DownAt(p);
      assert OrderAt(node.left) && OrderAt(node.right);
      assert pp != null ==> OrderAt(pp);
      assert c != null ==> OrderAt(c);
    }

    ghost method RaiseIntervals(node: Node, x: Node)
      requires x in nodes && node in nodes && x != node
      modifies nodes`lo, nodes`hi
      ensures x.lo == old(node.lo) && x.hi == old(node.hi)
      ensures forall n {:trigger n.lo} :: n in nodes && n != x ==>
                n.lo == if old(node.pos <= n.lo < x.pos) then x.pos else old(n.lo)
      ensures forall n {:trigger n.hi} :: n in nodes && n != x ==> unchanged(n`hi)
    {
      forall n | n in nodes && n != x && node.pos <= n.lo < x.pos {
        n.lo := x.pos;
      }
      x.lo, x.hi := old(node.lo), old(node.hi);
    }

    method SpliceLinks(node: Node, x: Node, ghost k: Splice) returns (p: Node, c: Node?)
      requires SpliceFields(k) && k.node == node && k.x == x
      modifies this, nodes`left, nodes`right, nodes`parent, nodes`lo, nodes`hi, nodes`color, nodes`bh
      ensures p == k.p && c == k.c
      ensures Spliced(k) && SplicedIntervals(k) && SplicedColours(k)
    {
      p, c := TakePlace(node, x);
      RaiseIntervals(node, x);
      x.bh := node.bh;
      nodes := nodes - {node};
    }

    /** rb_erase for a node with two children, up to the repair. */
    method SpliceNode(node: Node, x: Node, ghost k: Splice) returns (p: Node, c: Node?, ghost s: Side)
      requires Valid() && Splicable(k) && k.node == node && k.x == x
      modifies this, nodes`left, nodes`right, nodes`parent, nodes`lo, nodes`hi, nodes`color, nodes`bh
      ensures nodes == old(nodes) - {node}
      ensures old(x.color.Red?) ==> Valid()
      ensures old(x.color.Black?) ==> Short(c, p, s)
    {
      SpliceApart(k);
      assert UpAt(node) && UpAt(x);
      p, c := SpliceLinks(node, x, k);
      s := if p == x then Right else Left;
      SplicedState(k);
    }

    /** rb_erase without its effect on the sequence. */
    method EraseNode(node: Node)
      requires Valid() && node in nodes
      modifies this, nodes`left, nodes`right, nodes`parent, nodes`lo, nodes`hi, nodes`color, nodes`bh
      ensures Valid() && nodes == old(nodes) - {node}
    {
      var p: Node?, c: Node?, color: Color;
      ghost var s: Side;
      if node.left != null && node.right != null {
        var x := Next(node);
        assert UpAt(x) && DownAt(node) && OrderAt(node) && OrderAt(x);
        ghost var k := Splice(node, x, if x == node.right then x else x.parent, x.right, node.parent);
        color := x.color;
        p, c, s := SpliceNode(node, x, k);
      } else {
        color := node.color;
        p, c, s := DropNode(node);
      }
      if color.Black? {
        EraseFix(c, p, s);
      }
    }

    /** rb_erase: the tree is a red-black tree again and its in-order sequence lost exactly `node`. */
    method Erase(node: Node)
      requires Valid() && node in nodes
      modifies this, nodes`left, nodes`right, nodes`parent, nodes`lo, nodes`hi, nodes`color, nodes`bh
      ensures Valid() && nodes == old(nodes) - {node}
      ensures InOrder() == Without(old(InOrder()), node)
    {
      ghost var t := InOrder();
      InOrderExact();
      WithoutAscending(t, node);
      WithoutMembers(t, node);
      EraseNode(node);
      InOrderIs(Without(t, node));
    }

    // ----- putting a node in -----

    ghost predicate Linkable(k: Attach)
      reads this, nodes
    {
      && Valid() && k.node !in nodes
      && (if k.p == null then root == null else k.p in nodes && k.p.Kid(k.s) == null)
    }

    twostate predicate Linked(k: Attach)
      reads this, nodes
    {
      var Attach(node, p, s) := k;
      && nodes == old(nodes) + {node} && (p != null ==> p in nodes)
      && node.left == null && node.right == null && node.parent == p && node.color.Red? && node.bh == 0
      && root == (if p == null then node else old(root))
      && (p != null ==> p.Kid(s) == node && p.Kid(s.Other()) == old(p.Kid(s.Other())))
      && (forall n {:trigger n.left} {:trigger n.right} :: n in nodes && n != node && n != p ==>
          n.left == old(n.left) && n.right == old(n.right))
      && (forall n {:trigger n.parent} {:trigger n.lo} {:trigger n.hi} {:trigger n.color} {:trigger n.bh} ::
            n in nodes && n != node ==>
                n.parent == old(n.parent) && n.lo == old(n.lo) && n.hi == old(n.hi) &&
                n.color == old(n.color) && n.bh == old(n.bh))
      && (forall n {:trigger n.pos} :: n in nodes && n != node ==> n.pos == old(n.pos) && n.pos != node.pos)
      && node.lo < node.pos < node.hi
      && (p != null && s.Left? ==> p.lo <= node.lo && node.hi <= p.pos)
      && (p != null && s.Right? ==> p.pos <= node.lo && node.hi <= p.hi)
    }

    twostate lemma LinkedShape(k: Attach)
      requires old(Linkable(k)) && Linked(k)
      ensures Shape()
    {
      var Attach(node, p, s) := k;
      assert p != null ==> old(DownAt(p)) && old(OrderAt(p));
      forall n | n in nodes ensures DownAt(n) { if n != node { assert old(DownAt(n)); } }
      forall n | n in nodes ensures UpAt(n) { if n != node { assert old(UpAt(n)); } }
      forall n | n in nodes ensures OrderAt(n) { if n != node { assert old(OrderAt(n)) && old(DownAt(n)); } }
    }

    twostate lemma LinkedPending(k: Attach)
      requires old(Linkable(k)) && Linked(k) && Shape()
      ensures PendingRed(k.node)
    {
      var Attach(node, p, s) := k;
      assert DownAt(node);
      forall n | n in nodes ensures BalancedAt(n) { if n != node { assert old(BalancedAt(n)) && old(DownAt(n)) &&
          DownAt(n); } }
      forall n | n in nodes ensures RedAt(n, node) { if n != node { assert old(RedAt(n, null)) && old(DownAt(n)) &&
          DownAt(n); } }
    }

    /** Where a new child of `p` on side `s` belongs in the in-order sequence. */
    ghost function SlotIndex(p: Node?, s: Side): nat
      requires Shape() && (p != null ==> p in nodes)
      reads this, nodes
    {
      if p == null then 0 else
        InOrderExact();
        var i :| 0 <= i < |InOrder()| && InOrder()[i] == p;
        if s.Left? then i else i + 1
    }

    /** `m` comes before the link of `p` on side `s`. */
    ghost predicate Before(m: Node, p: Node?, s: Side)
      reads m`pos, {p}`pos
    {
      p != null && if s.Left? then m.pos < p.pos else m.pos <= p.pos
    }

    /** A free interval on side `s` of `p` that keeps clear of every position in use. */
    lemma Gap(p: Node, s: Side) returns (lo: real, hi: real)
      requires Shape() && p in nodes
      ensures lo < hi
      ensures s.Left? ==> p.lo <= lo && hi <= p.pos
      ensures s.Right? ==> p.pos <= lo && hi <= p.hi
      ensures forall m :: m in nodes ==> if Before(m, p, s) then m.pos <= lo else hi <= m.pos
    {
      InOrderExact();
      assert OrderAt(p);
      var t := InOrder();
      var i := SlotIndex(p, s);
      if s.Left? {
        hi := p.pos;
        lo := if i > 0 && t[i - 1].pos > p.lo then t[i - 1].pos else p.lo;
      } else {
        lo := p.pos;
        hi := if i < |t| && t[i].pos < p.hi then t[i].pos else p.hi;
      }
      forall m | m in nodes ensures if Before(m, p, s) then m.pos <= lo else hi <= m.pos {
        var j :| 0 <= j < |t| && t[j] == m;
      }
    }

    lemma SlotSplits(p: Node?, s: Side)
      requires Shape() && (p == null ==> root == null) && (p != null ==> p in nodes)
      ensures var t, i := InOrder(), SlotIndex(p, s);
              i <= |t| && forall j :: 0 <= j < |t| ==> t[j] in nodes && (j < i <==> Before(t[j], p, s))
    {
      InOrderExact();
    }

    lemma AscendingInsert(t: seq<Node>, i: nat, n: Node)
      requires Ascending(t) && i <= |t|
      requires forall j :: 0 <= j < |t| ==> if j < i then t[j].pos < n.pos else n.pos < t[j].pos
      ensures Ascending(t[..i] + [n] + t[i..])
      ensures forall m :: m in t[..i] + [n] + t[i..] <==> m == n || m in t
    {
      assert t == t[..i] + t[i..];
    }

    lemma InOrderPlus(t: seq<Node>, i: nat, n: Node)
      requires Shape() && Ascending(t) && i <= |t| && n in nodes && Lists(t, nodes - {n})
      requires forall j :: 0 <= j < |t| ==> if j < i then t[j].pos < n.pos else n.pos < t[j].pos
      ensures InOrder() == t[..i] + [n] + t[i..]
    {
      AscendingInsert(t, i, n);
      InOrderIs(t[..i] + [n] + t[i..]);
    }

    /** The assignments of rb_link. */
    method LinkFields(node: Node, p: Node?, s: Side, ghost lo: real, ghost hi: real)
      requires node !in nodes && (p != null ==> p in nodes) && lo < hi
      requires p != null && s.Left? ==> p.lo <= lo && hi <= p.pos
      requires p != null && s.Right? ==> p.pos <= lo && hi <= p.hi
      requires forall n :: n in nodes ==> n.pos <= lo || hi <= n.pos
      modifies this, node, {p}`left, {p}`right
      ensures Linked(Attach(node, p, s)) && node.lo == lo && node.hi == hi
    {
      node.parent, node.color := p, Red;
      node.left, node.right := null, null;
      if p == null {
        root := node;
      } else {
        p.SetKid(s, node);
      }
      node.lo, node.hi, node.pos, node.bh := lo, hi, (lo + hi) / 2.0, 0;
      nodes := nodes + {node};
    }

    method LinkLeaf(node: Node, p: Node?, s: Side, ghost lo: real, ghost hi: real)
      requires Linkable(Attach(node, p, s)) && lo < hi
      requires p != null && s.Left? ==> p.lo <= lo && hi <= p.pos
      requires p != null && s.Right? ==> p.pos <= lo && hi <= p.hi
      requires forall n :: n in nodes ==> n.pos <= lo || hi <= n.pos
      modifies this, node, {p}`left, {p}`right
      ensures PendingRed(node) && nodes == old(nodes) + {node} && lo < node.pos < hi
    {
      LinkFields(node, p, s, lo, hi);
      LinkedShape(Attach(node, p, s));
      LinkedPending(Attach(node, p, s));
    }

    /** A free interval where the link of `p` on side `s` is. */
    lemma Room(p: Node?, s: Side) returns (lo: real, hi: real)
      requires Shape() && (p == null ==> root == null) && (p != null ==> p in nodes)
      ensures lo < hi
      ensures p != null && s.Left? ==> p.lo <= lo && hi <= p.pos
      ensures p != null && s.Right? ==> p.pos <= lo && hi <= p.hi
      ensures forall m :: m in nodes ==> if Before(m, p, s) then m.pos <= lo else hi <= m.pos
    {
      lo, hi := -1.0, 1.0;
      if p != null { lo, hi := Gap(p, s); }
    }

    /** rb_link: a new red leaf beside `p`. */
    method Link(node: Node, p: Node?, s: Side)
      requires Linkable(Attach(node, p, s))
      modifies this, node, {p}`left, {p}`right
      ensures PendingRed(node) && nodes == old(nodes) + {node}
      ensures forall m {:trigger m.pos} :: m in old(nodes) ==>
              if old(Before(m, p, s)) then m.pos < node.pos else node.pos < m.pos
      ensures var t, i := old(InOrder()), old(SlotIndex(p, s)); i <= |t| && InOrder() == t[..i] + [node] + t[i..]
    {
      ghost var t, i := InOrder(), SlotIndex(p, s);
      InOrderExact();
      SlotSplits(p, s);
      ghost var lo, hi := Room(p, s);
      LinkLeaf(node, p, s, lo, hi);
      forall j | 0 <= j < |t| ensures if j < i then t[j].pos < node.pos else node.pos < t[j].pos {
        assert t[j] in old(nodes);
      }
      InOrderPlus(t, i, node);
    }

    /** rb_insert: a red-black tree again, with the same in-order sequence. */
    method Insert(node: Node)
      requires PendingRed(node)
      modifies this`root, nodes`left, nodes`right, nodes`parent, nodes`lo, nodes`hi, nodes`color, nodes`bh
      ensures Valid() && InOrder() == old(InOrder())
    {
      ghost var t := InOrder();
      InOrderExact();
      InsertFix(node);
      InOrderIs(t);
    }

    /** rb_link followed by rb_insert. */
    method Add(node: Node, p: Node?, s: Side)
      requires Linkable(Attach(node, p, s))
      modifies this, node, nodes`left, nodes`right, nodes`parent, nodes`lo, nodes`hi, nodes`color, nodes`bh
      ensures Valid() && nodes == old(nodes) + {node}
      ensures forall m {:trigger m.pos} :: m in old(nodes) ==> if old(Before(m, p, s)) then m.pos < node.pos
              else node.pos < m.pos
      ensures var t, i := old(InOrder()), old(SlotIndex(p, s)); i <= |t| && InOrder() == t[..i] + [node] + t[i..]
    {
      Link(node, p, s);
      Insert(node);
    }

    // ----- what the invariant means for whole paths -----

    /** A way down by child links from the first node of `path` to a null link below the last. */
    ghost predicate Descends(path: seq<Node>)
      reads this`nodes, nodes`left, nodes`right
    {
      && path != [] && path[0] in nodes
      && if |path| == 1 then path[0].left == null || path[0].right == null
         else (path[1] == path[0].left || path[1] == path[0].right) && Descends(path[1..])
    }

    ghost function Blacks(path: seq<Node>): nat
      reads path`color
    {
      if path == [] then 0 else Weight(path[0].color) + Blacks(path[1..])
    }

    /** Every way down from a node meets the same number of black nodes: its black height. */
    lemma {:induction false} PathBlacks(path: seq<Node>)
      requires Valid() && Descends(path)
      ensures Blacks(path) == path[0].bh
      decreases |path|
    {
      assert BalancedAt(path[0]);
      if |path| == 1 {
        assert path[1..] == [];
      } else {
        PathBlacks(path[1..]);
      }
    }

    /** A way down has at most twice as many nodes as black nodes, one more when it starts at a red node. */
    lemma {:induction false} PathLength(path: seq<Node>)
      requires Valid() && Descends(path)
      ensures |path| <= 2 * Blacks(path) + (if path[0].color.Red? then 1 else 0)
      decreases |path|
    {
      assert RedAt(path[0], null);
      if |path| > 1 { PathLength(path[1..]); }
    }

    /** No way down from the root is more than twice as long as another. */
    lemma DepthsAgree(a: seq<Node>, b: seq<Node>)
      requires Valid() && Descends(a) && Descends(b) && a[0] == root && b[0] == root
      ensures |a| <= 2 * |b|
    {
      PathBlacks(a);
      PathBlacks(b);
      PathLength(a);
      BlacksBound(b);
    }

    lemma {:induction false} BlacksBound(path: seq<Node>)
      ensures Blacks(path) <= |path|
    {
      if path != [] { BlacksBound(path[1..]); }
    }

    /** The successor is the next node of the in-order sequence, and the last node has none. */
    lemma SuccessorIndex(i: nat, r: Node?)
      requires Shape() && i < |InOrder()|
      ensures InOrder()[i] in nodes
      ensures IsSuccessor(InOrder()[i], r) <==> r == (if i + 1 < |InOrder()| then InOrder()[i + 1] else null)
    {
      InOrderExact();
      var t := InOrder();
      assert forall j :: 0 <= j < |t| ==> t[j] in nodes;
      if IsSuccessor(t[i], r) && r != null {
        var j :| 0 <= j < |t| && t[j] == r;
        assert i < j;
        assert t[i + 1] in nodes && t[i].pos < t[i + 1].pos;
      }
      if i + 1 < |t| {
        assert t[i].pos < t[i + 1].pos;
        forall m | m in nodes && t[i].pos < m.pos ensures t[i + 1].pos <= m.pos {
          var j :| 0 <= j < |t| && t[j] == m;
          assert j > i;
        }
      } else {
        forall m | m in nodes ensures m.pos <= t[i].pos {
          var j :| 0 <= j < |t| && t[j] == m;
        }
      }
    }
  }
}
