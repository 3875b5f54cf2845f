/**
 Insertion into a leaf of the B+ tree (hwfs/btree.c:18-58, 123-135, 236-285).

 A leaf is one block of bytes: a header of 6 bytes, then one value header of 21 bytes per record,
 then free space, then the data of the records, packed against the end of the block with the first
 record last. Numbers are little-endian (hwfs/hwfs.h).
 */
module Leaf {

  import Mem
  import C = Common

  type Byte = b: int | 0 <= b < 256
  type Bytes = seq<Byte>

  // ----- little-endian numbers -----

  function Le(x: nat, n: nat): (s: Bytes)
    ensures |s| == n
    decreases n, x
  {
    if n == 0 then [] else [x % 256] + Le(x / 256, n - 1)
  }

  function Un(s: Bytes): nat {
    if s == [] then 0 else s[0] + 256 * Un(s[1..])
  }

  function Bound(n: nat): nat {
    if n == 0 then 1 else 256 * Bound(n - 1)
  }

  lemma {:induction false} LeRoundTrip(x: nat, n: nat)
    requires x < Bound(n)
    ensures Un(Le(x, n)) == x
    decreases n
  {
    if n > 0 {
      LeRoundTrip(x / 256, n - 1);
      assert Le(x, n)[1..] == Le(x / 256, n - 1);
    }
  }

  /** Little-endian: byte k has the weight 256^k. */
  lemma {:induction false} LeByte(x: nat, n: nat, k: nat)
    requires k < n
    ensures Bound(k) > 0 && Le(x, n)[k] == x / Bound(k) % 256
    decreases k
  {
    if k > 0 {
      LeByte(x / 256, n - 1, k - 1);
      C.DivideTwice(x, 256, Bound(k - 1));
    }
  }

  function Word(low: int, high: int): int {
    low + 256 * high
  }

  // ----- keys -----

  datatype Key = Key(id: nat, kind: Byte, offset: nat)

  predicate Storable(k: Key) {
    k.id < Bound(8) && k.offset < Bound(8)
  }

  /** hwfs_host_key_cmp. */
  function KeyCmp(l: Key, r: Key): int {
    if l.id < r.id then -1 else if l.id > r.id then 1
    else if l.kind < r.kind then -1 else if l.kind > r.kind then 1
    else if l.offset < r.offset then -1 else if l.offset > r.offset then 1
    else 0
  }

  /** The order of the keys: by id, then by kind, then by offset. */
  predicate Less(a: Key, b: Key) {
    a.id < b.id || (a.id == b.id && (a.kind < b.kind || (a.kind == b.kind && a.offset < b.offset)))
  }

  /** The comparison says which of two keys comes first. */
  lemma {:induction false} KeyOrder(a: Key, b: Key)
    ensures KeyCmp(a, b) < 0 <==> Less(a, b)
    ensures KeyCmp(a, b) > 0 <==> Less(b, a)
    ensures KeyCmp(a, b) == 0 <==> a == b
  {
  }

  /** hwfs_key_to_disk. */
  function EncKey(k: Key): (s: Bytes)
    ensures |s| == 17
  {
    Le(k.id, 8) + [k.kind] + Le(k.offset, 8)
  }

  /** hwfs_key_to_host. */
  function DecKey(s: Bytes): Key
    requires |s| == 17
  {
    Key(Un(s[..8]), s[8], Un(s[9..]))
  }

  /** The bytes of a key on disk: the id, the kind, the offset, low bytes first. */
  lemma {:induction false} KeyBytes(k: Key, i: nat)
    requires i < 8
    ensures Bound(i) > 0 && EncKey(k)[i] == k.id / Bound(i) % 256 && EncKey(k)[9 + i] == k.offset / Bound(i) % 256
    ensures EncKey(k)[8] == k.kind
  {
    LeByte(k.id, 8, i);
    LeByte(k.offset, 8, i);
  }

  lemma {:induction false} KeyRoundTrip(k: Key)
    requires Storable(k)
    ensures DecKey(EncKey(k)) == k
  {
    LeRoundTrip(k.id, 8);
    LeRoundTrip(k.offset, 8);
    assert EncKey(k)[..8] == Le(k.id, 8) && EncKey(k)[9..] == Le(k.offset, 8);
  }

  // ----- the block of a sequence of records -----

  datatype Rec = Rec(key: Key, data: Bytes)

  function EncValue(k: Key, offset: nat, size: nat): (s: Bytes)
    ensures |s| == 21
  {
    EncKey(k) + Le(offset, 2) + Le(size, 2)
  }

  lemma {:induction false} ValueFields(k: Key, offset: nat, size: nat)
    ensures var h := EncValue(k, offset, size);
            h[..17] == EncKey(k) && h[17..19] == Le(offset, 2) &&
            h[19..] == Le(size, 2)
  {
  }

  lemma {:induction false} ValueFrom(h: Bytes, k: Key, offset: nat, size: nat)
    requires |h| == 21 && h[..17] == EncKey(k) && h[17..19] == Le(offset, 2) && h[19..] == Le(size, 2)
    ensures h == EncValue(k, offset, size)
  {
    assert h == h[..17] + h[17..19] + h[19..];
  }

  /** The data of the records as they lie in the block. */
  ghost function Back(rs: seq<Rec>): Bytes {
    if rs == [] then [] else Back(rs[1..]) + rs[0].data
  }

  lemma {:induction false} Assoc(a: Bytes, b: Bytes, c: Bytes)
    ensures a + b + c == a + (b + c)
  {
  }

  lemma {:induction false} BackConcat(a: seq<Rec>, b: seq<Rec>)
    ensures Back(a + b) == Back(b) + Back(a)
  {
    if a == [] {
      assert a + b == b;
      assert Back(b) + [] == Back(b);
    } else {
      BackConcat(a[1..], b);
      assert (a + b)[1..] == a[1..] + b;
      Assoc(Back(b), Back(a[1..]), a[0].data);
    }
  }

  /** The bytes that the data of the first k records takes. */
  ghost function Used(rs: seq<Rec>, k: int): nat
    requires 0 <= k <= |rs|
    decreases k
  {
    if k == 0 then 0 else Used(rs, k - 1) + |rs[k - 1].data|
  }

  lemma {:induction false} UsedPrefix(a: seq<Rec>, c: seq<Rec>, k: int)
    requires 0 <= k <= |a|
    ensures Used(a + c, k) == Used(a, k)
    decreases k
  {
    if k > 0 { UsedPrefix(a, c, k - 1); }
  }

  lemma {:induction false} UsedConcat(a: seq<Rec>, c: seq<Rec>, k: int)
    requires 0 <= k <= |c|
    ensures Used(a + c, |a| + k) == Used(a, |a|) + Used(c, k)
    decreases k
  {
    if k == 0 { UsedPrefix(a, c, |a|); } else { UsedConcat(a, c, k - 1); }
  }

  lemma {:induction false} UsedAll(rs: seq<Rec>)
    ensures |Back(rs)| == Used(rs, |rs|)
  {
    if rs != [] {
      UsedAll(rs[1..]);
      assert rs == [rs[0]] + rs[1..];
      UsedConcat([rs[0]], rs[1..], |rs| - 1);
      assert Used([rs[0]], 1) == Used([rs[0]], 0) + |rs[0].data|;
    }
  }

  /** The value header of a record, at position p of the block. */
  ghost predicate ValueAt(b: Bytes, p: int, r: Rec, offset: int) {
    0 <= p && p + 21 <= |b| && 0 <= offset && b[p..p + 21] == EncValue(r.key, offset, |r.data|)
  }

  /**
   Value header i, `shift` places further back than in a block of just these records, with its data `d` bytes
   lower.
   */
  ghost predicate Entry(b: Bytes, rs: seq<Rec>, i: int, shift: int, d: int) {
    0 <= i < |rs| && ValueAt(b, 6 + 21 * (i + shift), rs[i], |b| - Used(rs, i + 1) - d)
  }

  ghost predicate Entries(b: Bytes, rs: seq<Rec>, low: int, high: int, shift: int, d: int) {
    forall i {:trigger Entry(b, rs, i, shift, d)} :: low <= i < high ==> Entry(b, rs, i, shift, d)
  }

  /** The headers and the data of the records are in place: they do not meet, and the data is packed to the end. */
  ghost predicate Body(b: Bytes, rs: seq<Rec>) {
    && 6 <= |b| < 65536
    && 6 + 21 * |rs| + Used(rs, |rs|) <= |b|
    && Entries(b, rs, 0, |rs|, 0, 0)
    && b[|b| - Used(rs, |rs|)..] == Back(rs)
    && (forall i {:trigger rs[i]} :: 0 <= i < |rs| ==> Storable(rs[i].key))
  }

  /** The block holds exactly these records. */
  ghost predicate Holds(b: Bytes, rs: seq<Rec>) {
    Body(b, rs) && b[2..4] == Le(|rs|, 2)
  }

  ghost predicate Ascending(rs: seq<Rec>) {
    forall i, j :: 0 <= i < j < |rs| ==> !Less(rs[j].key, rs[i].key)
  }

  lemma {:induction false} UsedMonotone(rs: seq<Rec>, i: int, j: int)
    requires 0 <= i <= j <= |rs|
    ensures Used(rs, i) <= Used(rs, j)
    decreases j - i
  {
    if i < j { UsedMonotone(rs, i, j - 1); }
  }

  // ----- bytes that change and bytes that do not -----

  /** Only the bytes from p to q may differ. */
  ghost predicate Same(s: Bytes, t: Bytes, p: int, q: int) {
    0 <= p <= q <= |s| == |t| && s[..p] == t[..p] && s[q..] == t[q..]
  }

  lemma {:induction false} SubSlice(s: Bytes, p: int, q: int, x: int, y: int)
    requires 0 <= p <= x <= y <= q <= |s|
    ensures s[p..q][x - p..y - p] == s[x..y]
  {
    var a, b := s[p..q][x - p..y - p], s[x..y];
    assert forall i :: 0 <= i < |a| ==> a[i] == b[i];
  }

  lemma {:induction false} SameSlice(s: Bytes, t: Bytes, p: int, q: int, x: int, y: int)
    requires Same(s, t, p, q) && 0 <= x <= y <= |s| && (y <= p || q <= x)
    ensures s[x..y] == t[x..y]
  {
    if y <= p {
      SubSlice(s, 0, p, x, y);
      SubSlice(t, 0, p, x, y);
      assert s[0..p] == s[..p] && t[0..p] == t[..p];
    } else {
      SubSlice(s, q, |s|, x, y);
      SubSlice(t, q, |t|, x, y);
      assert s[q..|s|] == s[q..] && t[q..|t|] == t[q..];
    }
  }

  lemma {:induction false} ValueMoved(s: Bytes, p: int, t: Bytes, p': int, r: Rec, offset: int)
    requires ValueAt(s, p, r, offset) && 0 <= p' && p' + 21 <= |t| && t[p'..p' + 21] == s[p..p + 21]
    ensures ValueAt(t, p', r, offset)
  {
  }

  lemma {:induction false} ValueSame(s: Bytes, t: Bytes, p: int, q: int, x: int, r: Rec, offset: int)
    requires Same(s, t, p, q) && ValueAt(s, x, r, offset) && (x + 21 <= p || q <= x)
    ensures ValueAt(t, x, r, offset)
  {
    SameSlice(s, t, p, q, x, x + 21);
    ValueMoved(s, x, t, x, r, offset);
  }

  lemma {:induction false} EntriesSame(s: Bytes, t: Bytes, p: int, q: int, rs: seq<Rec>, low: int, high: int,
                                       shift: int, d: int)
    requires Same(s, t, p, q) && Entries(s, rs, low, high, shift, d)
    requires 6 + 21 * (high + shift) <= p || q <= 6 + 21 * (low + shift)
    ensures Entries(t, rs, low, high, shift, d)
  {
    forall i | low <= i < high ensures Entry(t, rs, i, shift, d) {
      assert Entry(s, rs, i, shift, d);
      EntrySame(s, t, p, q, rs, i, shift, d);
    }
  }

  lemma {:induction false} EntrySame(s: Bytes, t: Bytes, p: int, q: int, rs: seq<Rec>, i: int, shift: int, d: int)
    requires Same(s, t, p, q) && Entry(s, rs, i, shift, d)
    requires 6 + 21 * (i + shift) + 21 <= p || q <= 6 + 21 * (i + shift)
    ensures Entry(t, rs, i, shift, d)
  {
    var x, offset := 6 + 21 * (i + shift), |s| - Used(rs, i + 1) - d;
    ValueSame(s, t, p, q, x, rs[i], offset);
  }

  /** Reading a value header. */
  lemma {:induction false} ReadValue(b: Bytes, p: int, r: Rec, offset: int)
    requires ValueAt(b, p, r, offset) && offset < 65536 && |r.data| < 65536 && Storable(r.key)
    ensures Un(b[p + 17..p + 19]) == offset && Un(b[p + 19..p + 21]) == |r.data| && DecKey(b[p..p + 17]) == r.key
  {
    var h := b[p..p + 21];
    ValueFields(r.key, offset, |r.data|);
    SubSlice(b, p, p + 21, p + 17, p + 19);
    SubSlice(b, p, p + 21, p + 19, p + 21);
    SubSlice(b, p, p + 21, p, p + 17);
    assert Bound(2) == 65536 by { assert Bound(1) == 256 by { assert Bound(0) == 1; } }
    LeRoundTrip(offset, 2);
    LeRoundTrip(|r.data|, 2);
    KeyRoundTrip(r.key);
  }

  /** Overwriting the offset of a value header. */
  lemma {:induction false} OffsetWritten(s: Bytes, t: Bytes, p: int, r: Rec, offset: int, offset': int)
    requires ValueAt(s, p, r, offset) && 0 <= offset' && Same(s, t, p + 17, p + 19) &&
             t[p + 17..p + 19] == Le(offset', 2)
    ensures ValueAt(t, p, r, offset')
  {
    var h, g := s[p..p + 21], t[p..p + 21];
    ValueFields(r.key, offset, |r.data|);
    SameSlice(s, t, p + 17, p + 19, p, p + 17);
    SameSlice(s, t, p + 17, p + 19, p + 19, p + 21);
    SubSlice(s, p, p + 21, p, p + 17);
    SubSlice(s, p, p + 21, p + 19, p + 21);
    SubSlice(t, p, p + 21, p, p + 17);
    SubSlice(t, p, p + 21, p + 17, p + 19);
    SubSlice(t, p, p + 21, p + 19, p + 21);
    ValueFrom(g, r.key, offset', |r.data|);
  }

  lemma {:induction false} ReadEntry(b: Bytes, rs: seq<Rec>, i: int)
    requires Body(b, rs) && 0 <= i < |rs|
    ensures var p := 6 + 21 * i;
            && p + 21 <= |b| && Un(b[p + 17..p + 19]) == |b| - Used(rs, i + 1) && Un(b[p + 19..p + 21]) == |rs[i].data|
            && DecKey(b[p..p + 17]) == rs[i].key
  {
    assert Entry(b, rs, i, 0, 0);
    UsedMonotone(rs, i + 1, |rs|);
    EntryFields(b, rs, i);
  }

  lemma {:induction false} EntryFields(b: Bytes, rs: seq<Rec>, i: int)
    requires Entry(b, rs, i, 0, 0) && |b| < 65536 && Used(rs, i + 1) <= |b| && Storable(rs[i].key)
    ensures var p := 6 + 21 * i;
            && p + 21 <= |b| && Un(b[p + 17..p + 19]) == |b| - Used(rs, i + 1) && Un(b[p + 19..p + 21]) == |rs[i].data|
            && DecKey(b[p..p + 17]) == rs[i].key
  {
    assert |rs[i].data| <= Used(rs, i + 1);
    var x, offset := 6 + 21 * i, |b| - Used(rs, i + 1);
    assert ValueAt(b, x, rs[i], offset);
    ReadValue(b, x, rs[i], offset);
  }

  lemma {:induction false} ReadCount(b: Bytes, rs: seq<Rec>)
    requires Holds(b, rs)
    ensures Un(b[2..4]) == |rs|
  {
    assert Bound(2) == 65536 by { assert Bound(1) == 256 by { assert Bound(0) == 1; } }
    LeRoundTrip(|rs|, 2);
  }

  /** The data of the records from `slot` on, and of those before it. */
  lemma {:induction false} BackParts(rs: seq<Rec>, slot: int)
    requires 0 <= slot <= |rs|
    ensures Back(rs) == Back(rs[slot..]) + Back(rs[..slot])
    ensures |Back(rs[..slot])| == Used(rs, slot) && |Back(rs[slot..])| == Used(rs, |rs|) - Used(rs, slot) &&
            |Back(rs)| == Used(rs, |rs|)
  {
    var a, c := rs[..slot], rs[slot..];
    assert rs == a + c;
    BackConcat(a, c);
    UsedAll(a);
    UsedAll(rs);
    UsedPrefix(a, c, slot);
  }

  lemma {:induction false} DataParts(b: Bytes, rs: seq<Rec>, slot: int)
    requires Body(b, rs) && 0 <= slot <= |rs|
    ensures Used(rs, slot) <= Used(rs, |rs|)
    ensures b[|b| - Used(rs, |rs|)..|b| - Used(rs, slot)] == Back(rs[slot..]) &&
            b[|b| - Used(rs, slot)..] == Back(rs[..slot])
  {
    BackParts(rs, slot);
    TailParts(b, |b| - Used(rs, |rs|), Back(rs[slot..]), Back(rs[..slot]));
  }

  lemma {:induction false} TailParts(b: Bytes, x: int, u: Bytes, v: Bytes)
    requires 0 <= x <= |b| && b[x..] == u + v
    ensures x + |u| <= |b| && b[x..x + |u|] == u && b[x + |u|..] == v
  {
    assert b[x..][..|u|] == u && b[x..][|u|..] == v;
  }

  /** The data of each record can be read back. */
  lemma {:induction false} RecordData(b: Bytes, rs: seq<Rec>, i: int)
    requires Body(b, rs) && 0 <= i < |rs|
    ensures 0 <= |b| - Used(rs, i + 1) && b[|b| - Used(rs, i + 1)..|b| - Used(rs, i)] == rs[i].data
  {
    DataParts(b, rs, i);
    LastData(rs, i);
    SlicePart(b, |b| - Used(rs, |rs|), |b| - Used(rs, i), Back(rs[i + 1..]), rs[i].data);
  }

  lemma {:induction false} LastData(rs: seq<Rec>, i: int)
    requires 0 <= i < |rs|
    ensures Back(rs[i..]) == Back(rs[i + 1..]) + rs[i].data && |Back(rs[i + 1..])| == Used(rs, |rs|) - Used(rs, i + 1)
  {
    BackParts(rs, i + 1);
    assert rs[i..][1..] == rs[i + 1..];
  }

  lemma {:induction false} SlicePart(b: Bytes, x: int, y: int, u: Bytes, v: Bytes)
    requires 0 <= x <= y <= |b| && b[x..y] == u + v
    ensures x + |u| <= y && b[x + |u|..y] == v
  {
    assert b[x..y][|u|..] == v;
  }

  /** What stands in the header of a record: its key, the place of its data and the size. */
  lemma {:induction false} HeaderBytes(b: Bytes, rs: seq<Rec>, i: nat, j: nat)
    requires Body(b, rs) && i < |rs| && j < 8
    ensures var p, k := 6 + 21 * i, rs[i].key;
            && Bound(j) > 0 && b[p + j] == k.id / Bound(j) % 256 && b[p + 8] == k.kind &&
                b[p + 9 + j] == k.offset / Bound(j) % 256
            && Word(b[p + 17], b[p + 18]) == |b| - Used(rs, i + 1) && Word(b[p + 19], b[p + 20]) == |rs[i].data|
  {
    UsedMonotone(rs, i + 1, |rs|);
    assert Entry(b, rs, i, 0, 0);
    var d, n := |b| - Used(rs, i + 1), |rs[i].data|;
    assert Used(rs, i + 1) == Used(rs, i) + n;
    SliceBytes(b, 6 + 21 * i, EncValue(rs[i].key, d, n));
    ValueBytes(rs[i].key, d, n, j);
  }

  lemma SliceBytes(b: Bytes, p: nat, h: Bytes)
    requires p + |h| <= |b| && b[p..p + |h|] == h
    ensures forall x {:trigger h[x]} {:trigger b[p + x]} :: 0 <= x < |h| ==> b[p + x] == h[x]
  {
  }

  lemma CountBytes(b: Bytes, rs: seq<Rec>)
    requires Holds(b, rs)
    ensures Word(b[2], b[3]) == |rs|
  {
    Short(b[2..4], |rs|);
  }

  lemma {:induction false} ValueBytes(k: Key, offset: nat, size: nat, j: nat)
    requires offset < 65536 && size < 65536 && j < 8
    ensures var h := EncValue(k, offset, size);
            && Bound(j) > 0 && h[j] == k.id / Bound(j) % 256 && h[8] == k.kind && h[9 + j] == k.offset / Bound(j) % 256
            && Word(h[17], h[18]) == offset && Word(h[19], h[20]) == size
  {
    var h := EncValue(k, offset, size);
    ValueFields(k, offset, size);
    KeyBytes(k, j);
    Short(h[17..19], offset);
    Short(h[19..], size);
  }

  lemma {:induction false} Short(s: Bytes, x: nat)
    requires x < 65536 && s == Le(x, 2)
    ensures Word(s[0], s[1]) == x
  {
    assert Le(x, 2) == [x % 256] + Le(x / 256, 1);
    assert Le(x / 256, 1) == [x / 256 % 256] + Le(x / 256 / 256, 0);
  }

  /** A block holds one sequence of records only: nothing about them is lost in it. */
  lemma {:induction false} OneContent(b: Bytes, rs: seq<Rec>, ss: seq<Rec>)
    requires Holds(b, rs) && Holds(b, ss)
    ensures rs == ss
  {
    ReadCount(b, rs);
    ReadCount(b, ss);
    forall i | 0 <= i < |rs| ensures rs[i] == ss[i] {
      ReadEntry(b, rs, i);
      ReadEntry(b, ss, i);
      RecordData(b, rs, i);
      RecordData(b, ss, i);
    }
  }

  // ----- operations -----

  /** memcpy of bytes into the block. */
  method Write(block: array<Byte>, p: int, bs: Bytes)
    requires 0 <= p && p + |bs| <= block.Length
    modifies block
    ensures Same(old(block[..]), block[..], p, p + |bs|) && block[p..p + |bs|] == bs
  {
    var i := 0;
    while i < |bs|
      invariant 0 <= i <= |bs|
      invariant forall k :: 0 <= k < p || p + |bs| <= k < block.Length ==> block[k] == old(block[k])
      invariant forall k :: p <= k < p + i ==> block[k] == bs[k - p]
    {
      block[p + i] := bs[i];
      i := i + 1;
    }
    assert block[..p] == old(block[..p]) && block[p + |bs|..] == old(block[p + |bs|..]);
  }

  /** btree_leaf_room. */
  method Room(block: array<Byte>, ghost rs: seq<Rec>) returns (room: int)
    requires Holds(block[..], rs)
    ensures room == block.Length - 6 - 21 * |rs| - Used(rs, |rs|)
  {
    ReadCount(block[..], rs);
    var count := Un(block[2..4]);
    assert block[2..4] == block[..][2..4];
    if count == 0 { return block.Length - 6; }
    var p := 6 + 21 * (count - 1);
    ReadEntry(block[..], rs, count - 1);
    assert block[p + 17..p + 19] == block[..][p + 17..p + 19];
    room := Un(block[p + 17..p + 19]) - (6 + 21 * count);
  }

  ghost predicate SplitsAt(rs: seq<Rec>, key: Key, pos: int) {
    && 0 <= pos <= |rs|
    && (forall i :: 0 <= i < pos ==> Less(rs[i].key, key))
    && (forall i :: pos <= i < |rs| ==> !Less(rs[i].key, key))
  }

  /** btree_lower_bound on a leaf: the first record whose key is not less. */
  method LowerBound(block: array<Byte>, key: Key, ghost rs: seq<Rec>) returns (pos: int)
    requires Holds(block[..], rs) && Ascending(rs)
    ensures SplitsAt(rs, key, pos)
  {
    ReadCount(block[..], rs);
    assert block[2..4] == block[..][2..4];
    pos := 0;
    var len := Un(block[2..4]);
    while len != 0
      invariant 0 <= pos <= pos + len <= |rs|
      invariant forall i :: 0 <= i < pos ==> Less(rs[i].key, key)
      invariant forall i :: pos + len <= i < |rs| ==> !Less(rs[i].key, key)
      decreases len
    {
      var half := len / 2;
      var m := pos + half;
      var p := 6 + 21 * m;
      ReadEntry(block[..], rs, m);
      assert block[p..p + 17] == block[..][p..p + 17];
      var cmp := KeyCmp(key, DecKey(block[p..p + 17]));
      OrderAround(rs, key, m);
      if cmp > 0 {
        pos := m + 1;
        len := len - half - 1;
      } else {
        len := half;
      }
    }
  }

  /** btree_upper_bound on a leaf: the first record whose key is greater. */
  method UpperBound(block: array<Byte>, key: Key, ghost rs: seq<Rec>) returns (pos: int)
    requires Holds(block[..], rs) && Ascending(rs)
    ensures 0 <= pos <= |rs|
    ensures forall i :: 0 <= i < pos ==> !Less(key, rs[i].key)
    ensures forall i :: pos <= i < |rs| ==> Less(key, rs[i].key)
  {
    ReadCount(block[..], rs);
    assert block[2..4] == block[..][2..4];
    pos := 0;
    var len := Un(block[2..4]);
    while len != 0
      invariant 0 <= pos <= pos + len <= |rs|
      invariant forall i :: 0 <= i < pos ==> !Less(key, rs[i].key)
      invariant forall i :: pos + len <= i < |rs| ==> Less(key, rs[i].key)
      decreases len
    {
      var half := len / 2;
      var m := pos + half;
      var p := 6 + 21 * m;
      ReadEntry(block[..], rs, m);
      assert block[p..p + 17] == block[..][p..p + 17];
      var cmp := KeyCmp(key, DecKey(block[p..p + 17]));
      OrderAround(rs, key, m);
      if cmp >= 0 {
        pos := m + 1;
        len := len - half - 1;
      } else {
        len := half;
      }
    }
  }

  lemma {:induction false} OrderAround(rs: seq<Rec>, key: Key, m: int)
    requires Ascending(rs) && 0 <= m < |rs|
    ensures KeyCmp(key, rs[m].key) > 0 ==> forall i :: 0 <= i <= m ==> Less(rs[i].key, key)
    ensures KeyCmp(key, rs[m].key) <= 0 ==> forall i :: m <= i < |rs| ==> !Less(rs[i].key, key)
    ensures KeyCmp(key, rs[m].key) >= 0 ==> forall i :: 0 <= i <= m ==> !Less(key, rs[i].key)
    ensures KeyCmp(key, rs[m].key) < 0 ==> forall i :: m <= i < |rs| ==> Less(key, rs[i].key)
  {
    KeyOrder(key, rs[m].key);
  }

  /** Where the data of the records from `slot` on begins and ends. */
  method Span(block: array<Byte>, slot: int, count: int, ghost rs: seq<Rec>) returns (begin: int, end: int)
    requires Body(block[..], rs) && 0 <= slot < count == |rs|
    ensures begin == block.Length - Used(rs, count) && end == block.Length - Used(rs, slot)
  {
    var p, q := 6 + 21 * (count - 1), 6 + 21 * slot;
    ReadEntry(block[..], rs, count - 1);
    ReadEntry(block[..], rs, slot);
    assert block[p + 17..p + 19] == block[..][p + 17..p + 19];
    assert block[q + 17..q + 19] == block[..][q + 17..q + 19] && block[q + 19..q + 21] == block[..][q + 19..q + 21];
    begin := Un(block[p + 17..p + 19]);
    end := Un(block[q + 17..q + 19]) + Un(block[q + 19..q + 21]);
  }

  ghost predicate DataMoved(b: Bytes, rs: seq<Rec>, slot: int, size: int) {
    && 0 <= slot <= |rs| && 0 <= size && Used(rs, slot) <= Used(rs, |rs|)
    && 6 + 21 * (|rs| + 1) + Used(rs, |rs|) + size <= |b| < 65536
    && b[|b| - Used(rs, |rs|) - size..|b| - Used(rs, slot) - size] == Back(rs[slot..])
    && b[|b| - Used(rs, slot)..] == Back(rs[..slot])
  }

  /** After the first memmove. */
  lemma {:induction false} DataDown(s: Bytes, t: Bytes, rs: seq<Rec>, slot: int, size: int)
    requires Body(s, rs) && 0 <= slot <= |rs| && 0 <= size && 6 + 21 * (|rs| + 1) + Used(rs, |rs|) + size <= |s|
    requires var begin, end := |s| - Used(rs, |rs|), |s| - Used(rs, slot);
             begin <= end &&
             Mem.Moved(s, t, begin - size, begin, end - begin)
    ensures DataMoved(t, rs, slot, size) && Entries(t, rs, 0, |rs|, 0, 0) && t[2..4] == s[2..4]
  {
    var begin, end := |s| - Used(rs, |rs|), |s| - Used(rs, slot);
    assert Same(s, t, begin - size, end - size);
    SameSlice(s, t, begin - size, end - size, 2, 4);
    EntriesSame(s, t, begin - size, end - size, rs, 0, |rs|, 0, 0);
    DataParts(s, rs, slot);
    DataLower(s, t, rs, slot, size);
  }

  lemma {:induction false} DataLower(s: Bytes, t: Bytes, rs: seq<Rec>, slot: int, size: int)
    requires 0 <= slot <= |rs| && 0 <= size && 6 + 21 * (|rs| + 1) + Used(rs, |rs|) + size <= |s| < 65536
    requires var begin, end := |s| - Used(rs, |rs|), |s| - Used(rs, slot);
             && 0 <= begin <= end <= |s| && Mem.Moved(s, t, begin - size, begin, end - begin)
             && s[begin..end] == Back(rs[slot..]) && s[end..] == Back(rs[..slot])
    ensures DataMoved(t, rs, slot, size)
  {
    TailMoved(s, t, |s| - Used(rs, |rs|), |s| - Used(rs, slot), size);
  }

  lemma {:induction false} TailMoved(s: Bytes, t: Bytes, begin: int, end: int, size: int)
    requires 0 <= size <= begin <= end <= |s| && Mem.Moved(s, t, begin - size, begin, end - begin)
    ensures t[begin - size..end - size] == s[begin..end] && t[end..] == s[end..]
  {
    assert Same(s, t, begin - size, end - size);
    SameSlice(s, t, begin - size, end - size, end, |s|);
    assert s[end..|s|] == s[end..] && t[end..|t|] == t[end..];
  }

  /** Changes among the headers leave the data alone. */
  lemma {:induction false} DataSame(s: Bytes, t: Bytes, p: int, q: int, rs: seq<Rec>, slot: int, size: int)
    requires Same(s, t, p, q) && q <= 6 + 21 * (|rs| + 1) && DataMoved(s, rs, slot, size)
    ensures DataMoved(t, rs, slot, size)
  {
    var x, y, z := |s| - Used(rs, |rs|) - size, |s| - Used(rs, slot) - size, |s| - Used(rs, slot);
    SameSlice(s, t, p, q, x, y);
    SameSlice(s, t, p, q, z, |s|);
    assert s[z..|s|] == s[z..] && t[z..|t|] == t[z..];
  }

  /** After the second memmove. */
  lemma {:induction false} HeadersUp(s: Bytes, t: Bytes, rs: seq<Rec>, slot: int)
    requires Entries(s, rs, 0, |rs|, 0, 0) && 0 <= slot <= |rs| && 6 + 21 * (|rs| + 1) <= |s|
    requires Mem.Moved(s, t, 6 + 21 * (slot + 1), 6 + 21 * slot, 21 * (|rs| - slot))
    ensures Same(s, t, 6 + 21 * (slot + 1), 6 + 21 * (|rs| + 1)) && t[2..4] == s[2..4]
    ensures Entries(t, rs, 0, slot, 0, 0) && Entries(t, rs, slot, |rs|, 1, 0)
  {
    var p, q, n := 6 + 21 * (slot + 1), 6 + 21 * slot, 21 * (|rs| - slot);
    assert Same(s, t, p, p + n);
    SameSlice(s, t, p, p + n, 2, 4);
    forall i | 0 <= i < slot ensures Entry(t, rs, i, 0, 0) {
      assert Entry(s, rs, i, 0, 0);
      EntrySame(s, t, p, p + n, rs, i, 0, 0);
    }
    forall i | slot <= i < |rs| ensures Entry(t, rs, i, 1, 0) {
      assert Entry(s, rs, i, 0, 0);
      HeaderUp(s, t, rs, slot, i);
    }
  }

  lemma {:induction false} HeaderUp(s: Bytes, t: Bytes, rs: seq<Rec>, slot: int, i: int)
    requires Entry(s, rs, i, 0, 0) && 0 <= slot <= i < |rs| && 6 + 21 * (|rs| + 1) <= |s|
    requires Mem.Moved(s, t, 6 + 21 * (slot + 1), 6 + 21 * slot, 21 * (|rs| - slot))
    ensures Entry(t, rs, i, 1, 0)
  {
    var p, q, n, k := 6 + 21 * (slot + 1), 6 + 21 * slot, 21 * (|rs| - slot), 21 * (i - slot);
    SubSlice(s, q, q + n, q + k, q + k + 21);
    SubSlice(t, p, p + n, p + k, p + k + 21);
    ValueMoved(s, q + k, t, p + k, rs[i], |s| - Used(rs, i + 1));
  }

  /** The records before `slot` are in place; those from it on are one header further back and `size` bytes lower. */
  ghost predicate Opened(b: Bytes, rs: seq<Rec>, slot: int, size: int) {
    DataMoved(b, rs, slot, size) && Entries(b, rs, 0, slot, 0, 0) && Entries(b, rs, slot, |rs|, 1, size)
  }

  /** Halfway through the loop over the offsets: the headers up to record j have been corrected. */
  ghost predicate Shifting(b: Bytes, rs: seq<Rec>, slot: int, size: int, j: int) {
    && DataMoved(b, rs, slot, size) && slot <= j <= |rs|
    && Entries(b, rs, 0, slot, 0, 0) && Entries(b, rs, slot, j, 1, size) && Entries(b, rs, j, |rs|, 1, 0)
  }

  lemma {:induction false} ShiftStep(s: Bytes, t: Bytes, rs: seq<Rec>, slot: int, size: int, j: int)
    requires Shifting(s, rs, slot, size, j) && j < |rs|
    requires var p, v := 6 + 21 * (j + 1), |s| - Used(rs, j + 1) - size;
             0 <= v && Same(s, t, p + 17, p + 19) && t[p + 17..p + 19] == Le(v, 2)
    ensures Shifting(t, rs, slot, size, j + 1) && t[2..4] == s[2..4]
  {
    var p := 6 + 21 * (j + 1);
    SameSlice(s, t, p + 17, p + 19, 2, 4);
    DataSame(s, t, p + 17, p + 19, rs, slot, size);
    EntriesSame(s, t, p + 17, p + 19, rs, 0, slot, 0, 0);
    EntriesSame(s, t, p + 17, p + 19, rs, slot, j, 1, size);
    assert Entry(s, rs, j, 1, 0);
    OffsetWritten(s, t, p, rs[j], |s| - Used(rs, j + 1), |s| - Used(rs, j + 1) - size);
    assert Entry(t, rs, j, 1, size);
    assert Entries(s, rs, j + 1, |rs|, 1, 0);
    EntriesSame(s, t, p + 17, p + 19, rs, j + 1, |rs|, 1, 0);
  }

  /** Reading the offset of a header that has moved back. */
  lemma {:induction false} ShiftRead(b: Bytes, rs: seq<Rec>, slot: int, size: int, j: int)
    requires Shifting(b, rs, slot, size, j) && j < |rs| && Storable(rs[j].key)
    ensures var p := 6 + 21 * (j + 1);
            p + 21 <= |b| && Un(b[p + 17..p + 19]) == |b| - Used(rs, j + 1) &&
            size <= |b| - Used(rs, j + 1)
  {
    assert Entry(b, rs, j, 1, 0);
    UsedMonotone(rs, j + 1, |rs|);
    assert |rs[j].data| <= Used(rs, j + 1);
    ReadValue(b, 6 + 21 * (j + 1), rs[j], |b| - Used(rs, j + 1));
  }

  method ShiftOne(block: array<Byte>, i: int, size: int, ghost rs: seq<Rec>, ghost slot: int)
    requires Shifting(block[..], rs, slot, size, i - 1) && i - 1 < |rs| && Storable(rs[i - 1].key)
    modifies block
    ensures Shifting(block[..], rs, slot, size, i) && block[..][2..4] == old(block[..])[2..4]
  {
    var p := 6 + 21 * i;
    ShiftRead(block[..], rs, slot, size, i - 1);
    assert block[p + 17..p + 19] == block[..][p + 17..p + 19];
    var offset := Un(block[p + 17..p + 19]);
    Write(block, p + 17, Le(offset - size, 2));
    assert block[p + 17..p + 19] == block[..][p + 17..p + 19];
    ShiftStep(old(block[..]), block[..], rs, slot, size, i - 1);
  }

  /** The loop over the offsets of the moved headers. */
  method ShiftOffsets(block: array<Byte>, slot: int, count: int, size: int, ghost rs: seq<Rec>)
    requires Shifting(block[..], rs, slot, size, slot) && count == |rs|
    requires forall i {:trigger rs[i]} :: 0 <= i < |rs| ==> Storable(rs[i].key)
    modifies block
    ensures Opened(block[..], rs, slot, size) && block[..][2..4] == old(block[..])[2..4]
  {
    var i := slot + 1;
    while i != count + 1
      invariant slot + 1 <= i <= count + 1
      invariant Shifting(block[..], rs, slot, size, i - 1) && block[..][2..4] == old(block[..])[2..4]
    {
      ShiftOne(block, i, size, rs, slot);
      i := i + 1;
    }
  }

  /** The first memmove: the data of the records from `slot` on moves down. */
  method MoveDown(block: array<Byte>, begin: int, end: int, size: int, ghost rs: seq<Rec>, ghost slot: int)
    requires Body(block[..], rs) && 0 <= slot < |rs| && 0 <= size &&
             6 + 21 * (|rs| + 1) + Used(rs, |rs|) + size <= block.Length
    requires begin == block.Length - Used(rs, |rs|) <= end == block.Length - Used(rs, slot)
    modifies block
    ensures DataMoved(block[..], rs, slot, size) && Entries(block[..], rs, 0, |rs|, 0, 0) &&
            block[..][2..4] == old(block[..])[2..4]
  {
    Mem.Move(block, begin - size, begin, end - begin);
    DataDown(old(block[..]), block[..], rs, slot, size);
  }

  /** The second memmove: the headers of the records from `slot` on move back. */
  method MoveUp(block: array<Byte>, slot: int, count: int, size: int, ghost rs: seq<Rec>)
    requires DataMoved(block[..], rs, slot, size) && Entries(block[..], rs, 0, |rs|, 0, 0) && count == |rs|
    modifies block
    ensures Shifting(block[..], rs, slot, size, slot) && block[..][2..4] == old(block[..])[2..4]
  {
    ghost var s := block[..];
    Mem.Move(block, 6 + 21 * (slot + 1), 6 + 21 * slot, (count - slot) * 21);
    ghost var t := block[..];
    assert Mem.Moved(s, t, 6 + 21 * (slot + 1), 6 + 21 * slot, 21 * (|rs| - slot));
    MovedUp(s, t, rs, slot, size);
  }

  lemma {:induction false} MovedUp(s: Bytes, t: Bytes, rs: seq<Rec>, slot: int, size: int)
    requires DataMoved(s, rs, slot, size) && Entries(s, rs, 0, |rs|, 0, 0)
    requires Mem.Moved(s, t, 6 + 21 * (slot + 1), 6 + 21 * slot, 21 * (|rs| - slot))
    ensures Shifting(t, rs, slot, size, slot) && t[2..4] == s[2..4]
  {
    HeadersUp(s, t, rs, slot);
    DataSame(s, t, 6 + 21 * (slot + 1), 6 + 21 * (|rs| + 1), rs, slot, size);
  }

  /** Both memmoves and the loop. */
  method MakeGap(block: array<Byte>, slot: int, count: int, size: int, ghost rs: seq<Rec>) returns (offset: int)
    requires Body(block[..], rs) && 0 <= slot < count == |rs| && 0 <= size &&
             6 + 21 * (count + 1) + Used(rs, count) + size <= block.Length
    modifies block
    ensures Opened(block[..], rs, slot, size) && block[..][2..4] == old(block[..])[2..4]
    ensures offset == block.Length - Used(rs, slot) - size
  {
    var begin, end := Span(block, slot, count, rs);
    UsedMonotone(rs, slot, count);
    MoveDown(block, begin, end, size, rs, slot);
    MoveUp(block, slot, count, size, rs);
    ShiftOffsets(block, slot, count, size, rs);
    offset := end - size;
  }

  // ----- the new record -----

  ghost function Inserted(rs: seq<Rec>, slot: int, r: Rec): seq<Rec>
    requires 0 <= slot <= |rs|
  {
    rs[..slot] + [r] + rs[slot..]
  }

  lemma {:induction false} InsertedUsed(rs: seq<Rec>, slot: int, r: Rec, k: int)
    requires 0 <= slot <= |rs| && 0 <= k <= |rs|
    ensures k <= slot ==> Used(Inserted(rs, slot, r), k) == Used(rs, k)
    ensures slot <= k ==> Used(Inserted(rs, slot, r), k + 1) == Used(rs, k) + |r.data|
  {
    var a, c := rs[..slot], rs[slot..];
    assert rs == a + c;
    if k <= slot {
      UsedPrefix(a, c, k);
      UsedPrefix(a, [r] + c, k);
      assert a + ([r] + c) == Inserted(rs, slot, r);
    }
    if slot <= k {
      UsedConcat(a, c, k - slot);
      UsedConcat(a + [r], c, k - slot);
      UsedConcat(a, [r], 1);
      assert Used([r], 1) == Used([r], 0) + |r.data|;
    }
  }

  lemma {:induction false} InsertedBack(rs: seq<Rec>, slot: int, r: Rec)
    requires 0 <= slot <= |rs|
    ensures Back(Inserted(rs, slot, r)) == Back(rs[slot..]) + (r.data + Back(rs[..slot]))
  {
    BackConcat(rs[..slot] + [r], rs[slot..]);
    BackConcat(rs[..slot], [r]);
    assert Back([r]) == Back([]) + r.data == r.data by { assert [r][1..] == []; }
  }

  /** Insertion at the lower bound keeps the keys in order. */
  lemma {:induction false} InsertedAscending(rs: seq<Rec>, slot: int, r: Rec)
    requires Ascending(rs) && SplitsAt(rs, r.key, slot)
    ensures Ascending(Inserted(rs, slot, r))
  {
    var t := Inserted(rs, slot, r);
    assert forall i :: 0 <= i < slot ==> t[i] == rs[i];
    assert forall i :: slot < i < |t| ==> t[i] == rs[i - 1];
    assert t[slot] == r;
    forall i, j | 0 <= i < j < |t| ensures !Less(t[j].key, t[i].key) {
    }
  }

  /** Changes inside the header at `slot` leave the other records alone. */
  lemma {:induction false} OpenedSame(s: Bytes, t: Bytes, rs: seq<Rec>, slot: int, size: int)
    requires Opened(s, rs, slot, size) && Same(s, t, 6 + 21 * slot, 6 + 21 * slot + 21)
    ensures Opened(t, rs, slot, size) && t[2..4] == s[2..4]
  {
    var p, q := 6 + 21 * slot, 6 + 21 * slot + 21;
    SameSlice(s, t, p, q, 2, 4);
    DataSame(s, t, p, q, rs, slot, size);
    EntriesSame(s, t, p, q, rs, 0, slot, 0, 0);
    EntriesSame(s, t, p, q, rs, slot, |rs|, 1, size);
  }

  /** The offset, the key and the size of the new record. */
  method PutHeader(block: array<Byte>, p: int, r: Rec, offset: nat)
    requires 0 <= p && p + 21 <= block.Length
    modifies block
    ensures Same(old(block[..]), block[..], p, p + 21) && ValueAt(block[..], p, r, offset)
  {
    ghost var s := block[..];
    Write(block, p + 17, Le(offset, 2));
    ghost var t := block[..];
    assert t[p + 17..p + 19] == Le(offset, 2);
    Write(block, p, EncKey(r.key));
    ghost var u := block[..];
    assert u[p..p + 17] == EncKey(r.key);
    Write(block, p + 19, Le(|r.data|, 2));
    assert block[..][p + 19..p + 21] == Le(|r.data|, 2);
    HeaderWritten(s, t, u, block[..], p, r, offset);
  }

  lemma {:induction false} HeaderWritten(s: Bytes, t: Bytes, u: Bytes, v: Bytes, p: int, r: Rec, offset: nat)
    requires 0 <= p && p + 21 <= |s| && Same(s, t, p + 17, p + 19) && Same(t, u, p, p + 17) &&
             Same(u, v, p + 19, p + 21)
    requires t[p + 17..p + 19] == Le(offset, 2) && u[p..p + 17] == EncKey(r.key) && v[p + 19..p + 21] == Le(|r.data|, 2)
    ensures Same(s, v, p, p + 21) && ValueAt(v, p, r, offset)
  {
    SameSlice(t, u, p, p + 17, p + 17, p + 19);
    SameSlice(u, v, p + 19, p + 21, p + 17, p + 19);
    SameSlice(u, v, p + 19, p + 21, p, p + 17);
    SubSlice(v, p, p + 21, p, p + 17);
    SubSlice(v, p, p + 21, p + 17, p + 19);
    SubSlice(v, p, p + 21, p + 19, p + 21);
    ValueFrom(v[p..p + 21], r.key, offset, |r.data|);
    SameWider(s, t, p + 17, p + 19, p, p + 21);
    SameWider(t, u, p, p + 17, p, p + 21);
    SameWider(u, v, p + 19, p + 21, p, p + 21);
  }

  lemma {:induction false} SameWider(s: Bytes, t: Bytes, p: int, q: int, x: int, y: int)
    requires Same(s, t, p, q) && 0 <= x <= p && q <= y <= |s|
    ensures Same(s, t, x, y)
  {
    assert s[..x] == s[..p][..x] && t[..x] == t[..p][..x];
    assert s[y..] == s[q..][y - q..] && t[y..] == t[q..][y - q..];
  }

  /** After the data has been written, the block holds the old records and the new one. */
  lemma {:induction false} Reassembled(s: Bytes, t: Bytes, rs: seq<Rec>, slot: int, r: Rec)
    requires Opened(s, rs, slot, |r.data|) && Storable(r.key) && forall i {:trigger rs[i]} :: 0 <= i < |rs| ==>
             Storable(rs[i].key)
    requires var offset := |s| - Used(rs, slot) - |r.data|;
             && 0 <= offset && ValueAt(s, 6 + 21 * slot, r, offset) && Same(s, t, offset, offset + |r.data|) &&
                 t[offset..offset + |r.data|] == r.data
    ensures Body(t, Inserted(rs, slot, r)) && t[2..4] == s[2..4]
  {
    var n, offset := |r.data|, |s| - Used(rs, slot) - |r.data|;
    var rs' := Inserted(rs, slot, r);
    InsertedUsed(rs, slot, r, |rs|);
    SameSlice(s, t, offset, offset + n, 2, 4);
    NewEntries(s, t, rs, slot, r);
    NewData(s, t, rs, slot, r);
    InsertedStorable(rs, slot, r);
  }

  lemma {:induction false} InsertedStorable(rs: seq<Rec>, slot: int, r: Rec)
    requires 0 <= slot <= |rs| && Storable(r.key) && forall i {:trigger rs[i]} :: 0 <= i < |rs| ==> Storable(rs[i].key)
    ensures var t := Inserted(rs, slot, r); |t| == |rs| + 1 && forall i {:trigger t[i]} :: 0 <= i < |t| ==>
            Storable(t[i].key)
  {
  }

  lemma {:induction false} NewEntries(s: Bytes, t: Bytes, rs: seq<Rec>, slot: int, r: Rec)
    requires Opened(s, rs, slot, |r.data|)
    requires var offset := |s| - Used(rs, slot) - |r.data|;
             0 <= offset && ValueAt(s, 6 + 21 * slot, r, offset) && Same(s, t, offset, offset + |r.data|)
    ensures Entries(t, Inserted(rs, slot, r), 0, |rs| + 1, 0, 0)
  {
    var n, offset := |r.data|, |s| - Used(rs, slot) - |r.data|;
    var rs' := Inserted(rs, slot, r);
    EntriesSame(s, t, offset, offset + n, rs, 0, slot, 0, 0);
    EntriesSame(s, t, offset, offset + n, rs, slot, |rs|, 1, n);
    ValueSame(s, t, offset, offset + n, 6 + 21 * slot, r, offset);
    forall i | 0 <= i < |rs| + 1 ensures Entry(t, rs', i, 0, 0) {
      NewEntry(t, rs, slot, r, i);
    }
  }

  lemma {:induction false} NewEntry(t: Bytes, rs: seq<Rec>, slot: int, r: Rec, i: int)
    requires 0 <= slot <= |rs| && 0 <= i <= |rs| && Entries(t, rs, 0, slot, 0, 0) &&
             Entries(t, rs, slot, |rs|, 1, |r.data|)
    requires ValueAt(t, 6 + 21 * slot, r, |t| - Used(rs, slot) - |r.data|)
    ensures Entry(t, Inserted(rs, slot, r), i, 0, 0)
  {
    if i < slot {
      assert Entry(t, rs, i, 0, 0);
      InsertedUsed(rs, slot, r, i + 1);
    } else if i == slot {
      InsertedUsed(rs, slot, r, slot);
    } else {
      assert Entry(t, rs, i - 1, 1, |r.data|);
      InsertedUsed(rs, slot, r, i);
    }
  }

  lemma {:induction false} NewData(s: Bytes, t: Bytes, rs: seq<Rec>, slot: int, r: Rec)
    requires DataMoved(s, rs, slot, |r.data|)
    requires var offset := |s| - Used(rs, slot) - |r.data|;
             Same(s, t, offset, offset + |r.data|) &&
             t[offset..offset + |r.data|] == r.data
    ensures 0 <= |t| - Used(rs, |rs|) - |r.data| && t[|t| - Used(rs, |rs|) - |r.data|..] == Back(Inserted(rs, slot, r))
  {
    var n := |r.data|;
    var x, y, z := |s| - Used(rs, |rs|) - n, |s| - Used(rs, slot) - n, |s| - Used(rs, slot);
    SameSlice(s, t, y, z, x, y);
    assert t[z..] == s[z..];
    InsertedBack(rs, slot, r);
    Cut(t, x, y, z);
  }

  lemma {:induction false} Cut(t: Bytes, x: int, y: int, z: int)
    requires 0 <= x <= y <= z <= |t|
    ensures t[x..] == t[x..y] + (t[y..z] + t[z..])
  {
  }

  /**
   btree_leaf_insert_nooverflow: fails exactly when a header and the data do not fit, leaving the block
   as it was; otherwise the block holds the old records, byte for byte, with the new one at its place
   among the keys.
   */
  method Insert(block: array<Byte>, key: Key, data: Bytes, ghost rs: seq<Rec>) returns (ok: bool, slot: int)
    requires Holds(block[..], rs) && Ascending(rs) && Storable(key)
    modifies block
    ensures ok <==> 6 + 21 * (|rs| + 1) + Used(rs, |rs|) + |data| <= block.Length
    ensures !ok ==> block[..] == old(block[..])
    ensures ok ==>
            SplitsAt(rs, key, slot) && Holds(block[..], Inserted(rs, slot, Rec(key, data))) &&
            Ascending(Inserted(rs, slot, Rec(key, data)))
  {
    var room := Room(block, rs);
    if room < 21 + |data| { return false, 0; }
    slot := LowerBound(block, key, rs);
    InsertedAscending(rs, slot, Rec(key, data));
    var count := Count(block, rs);
    WriteCount(block, rs);
    var offset := Open(block, slot, count, |data|, rs);
    Fill(block, slot, Rec(key, data), offset, rs);
    ok := true;
  }

  method Count(block: array<Byte>, ghost rs: seq<Rec>) returns (count: int)
    requires Holds(block[..], rs)
    ensures count == |rs|
  {
    ReadCount(block[..], rs);
    assert block[2..4] == block[..][2..4];
    count := Un(block[2..4]);
  }

  method WriteCount(block: array<Byte>, ghost rs: seq<Rec>)
    requires Holds(block[..], rs)
    modifies block
    ensures Body(block[..], rs) && block[..][2..4] == Le(|rs| + 1, 2)
  {
    var count := Count(block, rs);
    ghost var s := block[..];
    Write(block, 2, Le(count + 1, 2));
    ghost var t, x := block[..], block.Length - Used(rs, |rs|);
    assert block[2..4] == t[2..4];
    EntriesSame(s, t, 2, 4, rs, 0, |rs|, 0, 0);
    SameSlice(s, t, 2, 4, x, |s|);
    assert s[x..|s|] == s[x..] && t[x..|t|] == t[x..];
  }

  /** Make room for the new record, at the end or before the record at `slot`. */
  method Open(block: array<Byte>, slot: int, count: int, size: int, ghost rs: seq<Rec>) returns (offset: int)
    requires Body(block[..], rs) && 0 <= slot <= count == |rs| && 0 <= size &&
             6 + 21 * (count + 1) + Used(rs, count) + size <= block.Length
    modifies block
    ensures Opened(block[..], rs, slot, size) && block[..][2..4] == old(block[..])[2..4]
    ensures offset == block.Length - Used(rs, slot) - size
  {
    if slot != count {
      offset := MakeGap(block, slot, count, size, rs);
    } else {
      AtEnd(block[..], rs, size);
      if count == 0 { return block.Length - size; }
      var p := 6 + 21 * (count - 1);
      ReadEntry(block[..], rs, count - 1);
      assert block[p + 17..p + 19] == block[..][p + 17..p + 19];
      offset := Un(block[p + 17..p + 19]) - size;
    }
  }

  /** At the end there is nothing to move. */
  lemma {:induction false} AtEnd(b: Bytes, rs: seq<Rec>, size: int)
    requires Body(b, rs) && 0 <= size && 6 + 21 * (|rs| + 1) + Used(rs, |rs|) + size <= |b|
    ensures Opened(b, rs, |rs|, size)
  {
    assert rs[..|rs|] == rs && rs[|rs|..] == [];
    assert Back([]) == [];
  }

  method Fill(block: array<Byte>, slot: int, r: Rec, offset: int, ghost rs: seq<Rec>)
    requires Opened(block[..], rs, slot, |r.data|) && offset == block.Length - Used(rs, slot) - |r.data|
    requires Storable(r.key) && forall i {:trigger rs[i]} :: 0 <= i < |rs| ==> Storable(rs[i].key)
    modifies block
    ensures Body(block[..], Inserted(rs, slot, r)) && block[..][2..4] == old(block[..])[2..4]
  {
    PutHeader(block, 6 + 21 * slot, r, offset);
    ghost var t := block[..];
    OpenedSame(old(block[..]), t, rs, slot, |r.data|);
    Write(block, offset, r.data);
    assert block[offset..offset + |r.data|] == block[..][offset..offset + |r.data|];
    Reassembled(t, block[..], rs, slot, r);
  }
}