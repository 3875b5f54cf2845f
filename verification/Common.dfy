/** Notions shared by the other modules. */
module Common {

  datatype Option<T> = None | Some(value: T)

  /** No element occurs twice. */
  ghost predicate NoDup<T>(s: seq<T>) {
    forall i, j :: 0 <= i < j < |s| ==> s[i] != s[j]
  }

  /** The function `f` with another value at `k`. */
  function Update<K(==), V>(f: K -> V, k: K, v: V): K -> V {
    x => if x == k then v else f(x)
  }

  function Pow2(k: nat): (r: nat)
    ensures r > 0
  {
    if k == 0 then 1 else 2 * Pow2(k - 1)
  }

  lemma {:induction false} PowGrows(j: nat, k: nat)
    requires j <= k
    ensures Pow2(j) <= Pow2(k)
    decreases k
  {
    if j < k { PowGrows(j, k - 1); }
  }

  lemma QuotientUnique(x: int, m: int, q: int, r: int)
    requires x == m * q + r && 0 <= r < m
    ensures x / m == q && x % m == r
  {
    var d := x / m - q;
    assert m * d == r - x % m;
    assert d >= 1 ==> m * d >= m;
    assert d <= -1 ==> m * d <= -m;
  }

  lemma Regroup(a: int, m: int, y: int, q: int, r: int, s: int)
    requires y == m * q + r && 0 <= r < m && 0 <= s < a
    ensures a * y + s == a * m * q + (a * r + s) && 0 <= a * r + s < a * m
  {
    assert a * (m * q) == a * m * q;
    assert a * r <= a * (m - 1);
  }

  /** Dividing by a product is dividing by one factor after the other. */
  lemma DivideTwice(x: int, a: int, m: int)
    requires a > 0 && m > 0 && a * m > 0
    ensures x / (a * m) == x / a / m && x % (a * m) == a * (x / a % m) + x % a
  {
    var y, s := x / a, x % a;
    var q, r := y / m, y % m;
    Regroup(a, m, y, q, r, s);
    QuotientUnique(a * y + s, a * m, q, a * r + s);
  }

  /** The large invariants that most of their users only pass on. */
  datatype Part =
    | TablesPart | ChangePart | WalkPart | AreasPart | IndexPart | PagesPart
    | QueuePart | LinksPart | TablePart | StepPart

  /**
   The key to such an invariant. Written `forall b :: Inside(part, b) ==> body` it means the same as its
   body, but a proof sees the body only where it says `assert Inside(part, true)`.
   */
  ghost predicate Inside(part: Part, b: bool) {
    b
  }
}
