/** Moving cells of an array that may overlap their destination (string.c:3-26). */
module Mem {

  /** memcpy, front to back: right when the destination is not above the source. */
  method Forward<T>(a: array<T>, dst: nat, src: nat, n: nat)
    requires dst + n <= a.Length && src + n <= a.Length && dst <= src
    modifies a
    ensures Moved(old(a[..]), a[..], dst, src, n)
  {
    var i := 0;
    while i < n
      invariant 0 <= i <= n
      invariant forall k :: 0 <= k < dst || dst + i <= k < a.Length ==> a[k] == old(a[k])
      invariant forall k :: dst <= k < dst + i ==> a[k] == old(a[src + k - dst])
    {
      a[dst + i] := a[src + i];
      i := i + 1;
    }
    assert a[dst..dst + n] == old(a[src..src + n]);
  }

  /** memcpy_r, back to front: right when the destination is above the source. */
  method Backward<T>(a: array<T>, dst: nat, src: nat, n: nat)
    requires dst + n <= a.Length && src + n <= a.Length && src <= dst
    modifies a
    ensures Moved(old(a[..]), a[..], dst, src, n)
  {
    var i := n;
    while i > 0
      invariant 0 <= i <= n
      invariant forall k :: 0 <= k < dst + i || dst + n <= k < a.Length ==> a[k] == old(a[k])
      invariant forall k :: dst + i <= k < dst + n ==> a[k] == old(a[src + k - dst])
    {
      i := i - 1;
      a[dst + i] := a[src + i];
    }
    assert a[dst..dst + n] == old(a[src..src + n]);
  }

  /** `n` cells from `src` on have been copied to `dst` on, and nothing else has changed. */
  ghost predicate Moved<T>(s: seq<T>, t: seq<T>, dst: nat, src: nat, n: nat) {
    && |t| == |s| && dst + n <= |s| && src + n <= |s|
    && t[..dst] == s[..dst] && t[dst..dst + n] == s[src..src + n] && t[dst + n..] == s[dst + n..]
  }

  /** memmove: whatever the overlap, the destination ends up with what the source held. */
  method Move<T>(a: array<T>, dst: nat, src: nat, n: nat)
    requires dst + n <= a.Length && src + n <= a.Length
    modifies a
    ensures Moved(old(a[..]), a[..], dst, src, n)
  {
    if dst > src { Backward(a, dst, src, n); } else { Forward(a, dst, src, n); }
  }
}
