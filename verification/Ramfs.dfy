/**
 Sparse files in memory (ramfs.c:229-260, 320-419) and the loops that write and read whole buffers
 (initramfs.c:56-70, exec.c:67-85).

 The pages of a file hang in a red-black tree by index. A file must behave like a flat string of bytes
 whose holes read as zero.
 */
module Ramfs {

  import opened Common
  import opened RbTree
  import I = Index

  type Byte = b: int | 0 <= b < 256

  // ----- flat strings -----

  function Zeros(n: nat): seq<Byte> {
    seq(n, i => 0)
  }

  /** A string after `data` has been written at `offset`; a gap before it is filled with zeros. */
  function Overwrite(s: seq<Byte>, offset: nat, data: seq<Byte>): (r: seq<Byte>)
    ensures |r| == if |s| < offset + |data| then offset + |data| else |s|
  {
    var p := if |s| < offset then s + Zeros(offset - |s|) else s;
    p[..offset] + data + if offset + |data| <= |p| then p[offset + |data|..] else []
  }

  lemma OverwriteAt(s: seq<Byte>, offset: nat, data: seq<Byte>, i: int)
    requires 0 <= i < |Overwrite(s, offset, data)|
    ensures Overwrite(s, offset, data)[i] ==
            if offset <= i < offset + |data| then data[i - offset] else if i < |s| then s[i] else 0
  {
  }

  /** Writing in two parts is writing the whole. */
  lemma OverwriteConcat(s: seq<Byte>, offset: nat, a: seq<Byte>, b: seq<Byte>)
    ensures Overwrite(Overwrite(s, offset, a), offset + |a|, b) == Overwrite(s, offset, a + b)
  {
    var t := Overwrite(s, offset, a);
    var l, r := Overwrite(t, offset + |a|, b), Overwrite(s, offset, a + b);
    forall i | 0 <= i < |l| ensures l[i] == r[i] {
      OverwriteAt(t, offset + |a|, b, i);
      OverwriteAt(s, offset, a + b, i);
      if i < |t| { OverwriteAt(s, offset, a, i); }
    }
  }

  lemma OverwriteRead(s: seq<Byte>, offset: nat, data: seq<Byte>)
    ensures Overwrite(s, offset, data)[offset..offset + |data|] == data
  {
    var r := Overwrite(s, offset, data);
    forall i | 0 <= i < |data| ensures r[offset + i] == data[i] { OverwriteAt(s, offset, data, offset + i); }
  }

  // ----- pages -----

  /** The byte at address a, given the pages by index; a missing page reads as zeros. */
  ghost function ByteAt(pages: map<int, seq<Byte>>, a: int): Byte
    requires Whole(pages)
  {
    if a / 4096 in pages then pages[a / 4096][a % 4096] else 0
  }

  ghost predicate Whole(pages: map<int, seq<Byte>>) {
    forall i :: i in pages ==> |pages[i]| == 4096
  }

  /** Beyond the end of the file there is nothing but zeros. */
  ghost predicate Clean(pages: map<int, seq<Byte>>, size: nat) {
    Whole(pages) && forall a {:trigger ByteAt(pages, a)} :: size <= a ==> ByteAt(pages, a) == 0
  }

  ghost function FlatOf(pages: map<int, seq<Byte>>, size: nat): (s: seq<Byte>)
    requires Whole(pages)
    ensures |s| == size
  {
    seq(size, a requires 0 <= a < size => ByteAt(pages, a))
  }

  /** Adding a page of zeros changes no byte. */
  lemma NewPage(pages: map<int, seq<Byte>>, size: nat, i: int)
    requires Clean(pages, size) && i !in pages
    ensures Clean(pages[i := Zeros(4096)], size) && FlatOf(pages[i := Zeros(4096)], size) == FlatOf(pages, size)
  {
    var pages' := pages[i := Zeros(4096)];
    assert forall a :: ByteAt(pages', a) == ByteAt(pages, a);
  }

  function Stored(page: seq<Byte>, off: nat, data: seq<Byte>): (r: seq<Byte>)
    requires off + |data| <= |page|
    ensures |r| == |page|
  {
    page[..off] + data + page[off + |data|..]
  }

  lemma StoredAt(pages: map<int, seq<Byte>>, i: nat, off: nat, data: seq<Byte>, a: int)
    requires Whole(pages) && i in pages && off + |data| <= 4096
    ensures var pages', start := pages[i := Stored(pages[i], off, data)], i * 4096 + off;
            Whole(pages') && ByteAt(pages', a) == if start <= a < start + |data| then data[a - start]
                else ByteAt(pages, a)
  {
  }

  /** Storing into a page is overwriting the flat string. */
  lemma StoredFlat(pages: map<int, seq<Byte>>, size: nat, i: nat, off: nat, data: seq<Byte>)
    requires Clean(pages, size) && i in pages && off + |data| <= 4096
    ensures var pages', start := pages[i := Stored(pages[i], off, data)], i * 4096 + off;
            var size' := if start + |data| > size then start + |data| else size;
            Clean(pages', size') && FlatOf(pages', size') == Overwrite(FlatOf(pages, size), start, data)
  {
    var pages', start := pages[i := Stored(pages[i], off, data)], i * 4096 + off;
    var size' := if start + |data| > size then start + |data| else size;
    forall a ensures ByteAt(pages', a) == if start <= a < start + |data| then data[a - start] else ByteAt(pages, a) {
      StoredAt(pages, i, off, data, a);
    }
    var was := FlatOf(pages, size);
    forall a | 0 <= a < size' ensures FlatOf(pages', size')[a] == Overwrite(was, start, data)[a] {
      OverwriteAt(was, start, data, a);
    }
  }

  /** A piece of the file inside one page, or inside a hole. */
  lemma ReadPiece(pages: map<int, seq<Byte>>, size: nat, start: nat, sz: nat)
    requires Whole(pages) && start + sz <= size && start % 4096 + sz <= 4096
    ensures FlatOf(pages, size)[start..start + sz] ==
            if start / 4096 in pages then pages[start / 4096][start % 4096..start % 4096 + sz] else Zeros(sz)
  {
    var y := FlatOf(pages, size)[start..start + sz];
    forall k | 0 <= k < sz ensures y[k] == if start / 4096 in pages then pages[start / 4096][start % 4096 + k] else 0 {
      assert (start + k) / 4096 == start / 4096 && (start + k) % 4096 == start % 4096 + k;
    }
  }

  /** The pages by index, given the tree's nodes by index and the bytes of each node. */
  ghost function PagesOf(at: map<int, Node>, bytes: map<Node, seq<Byte>>): map<int, seq<Byte>> {
    map i | i in at :: BytesOf(bytes, at[i])
  }

  ghost function BytesOf(bytes: map<Node, seq<Byte>>, n: Node): seq<Byte> {
    if n in bytes then bytes[n] else []
  }

  /** Every node of the tree has its bytes, and no two indices share a node. */
  ghost predicate Backed(at: map<int, Node>, bytes: map<Node, seq<Byte>>) {
    && (forall i {:trigger at[i]} :: i in at ==> at[i] in bytes)
    && (forall i, j {:trigger at[i], at[j]} :: i in at && j in at && at[i] == at[j] ==> i == j)
  }

  lemma PagesPut(at: map<int, Node>, bytes: map<Node, seq<Byte>>, i: int, n: Node, page: seq<Byte>)
    requires Backed(at, bytes) && i !in at && forall j {:trigger at[j]} :: j in at ==> at[j] != n
    ensures Backed(at[i := n], bytes[n := page])
    ensures PagesOf(at[i := n], bytes[n := page]) == PagesOf(at, bytes)[i := page]
  {
    var at', bytes' := at[i := n], bytes[n := page];
    forall j | j in at ensures BytesOf(bytes', at[j]) == BytesOf(bytes, at[j]) {
      assert at[j] != n;
    }
    assert PagesOf(at', bytes') == PagesOf(at, bytes)[i := page];
  }

  lemma PagesStore(at: map<int, Node>, bytes: map<Node, seq<Byte>>, i: int, page: seq<Byte>)
    requires Backed(at, bytes) && i in at
    ensures Backed(at, bytes[at[i] := page])
    ensures PagesOf(at, bytes[at[i] := page]) == PagesOf(at, bytes)[i := page]
  {
    var l, r := PagesOf(at, bytes[at[i] := page]), PagesOf(at, bytes)[i := page];
    assert l.Keys == r.Keys;
    forall j | j in l ensures l[j] == r[j] { assert at[j] == at[i] ==> j == i; }
  }

  // ----- how many pages a write lacks -----

  /** The pages of [lo, hi) that do not exist. */
  ghost function Gaps(keys: set<int>, lo: int, hi: int): nat
    decreases hi - lo
  {
    if hi <= lo then 0 else Gaps(keys, lo, hi - 1) + if hi - 1 in keys then 0 else 1
  }

  lemma {:induction false} GapsGrow(keys: set<int>, lo: int, mid: int, hi: int)
    requires mid <= hi
    ensures Gaps(keys, lo, mid) <= Gaps(keys, lo, hi)
    decreases hi - mid
  {
    if mid < hi { GapsGrow(keys, lo, mid, hi - 1); }
  }

  /** The first page after the first `n` bytes from `start`. */
  ghost function After(start: nat, n: nat): nat {
    if n == 0 then start / 4096 else (start + n - 1) / 4096 + 1
  }

  /** The pages that a write of n bytes at `start` lacks. */
  ghost function Lacks(keys: set<int>, start: nat, n: nat): nat {
    Gaps(keys, start / 4096, After(start, n))
  }

  /** One more page: a chunk ends with the page it lies in, or with the data. */
  lemma AfterChunk(start: nat, done: nat, count: nat)
    requires 0 < count <= 4096 - (start + done) % 4096 && (done == 0 || (start + done) % 4096 == 0)
    ensures After(start, done) == (start + done) / 4096 && After(start, done + count) == (start + done) / 4096 + 1
  {
    if done > 0 { assert (start + done - 1) / 4096 + 1 == (start + done) / 4096; }
    var a := start + done;
    assert (a + count - 1) / 4096 == a / 4096;
  }

  /** A write of `data` at `start` to the file `was` with the pages `keys`, when `free` more can be had. */
  datatype Plan = Plan(was: seq<Byte>, keys: set<int>, free: nat, start: nat, data: seq<Byte>) {

    /** The pages of the first `done` bytes exist, and the missing ones have been paid for. */
    ghost predicate Filled(pages: set<int>, avail: nat, done: nat) {
      && (forall i {:trigger i in pages} :: i in pages <==> i in keys || start / 4096 <= i < After(start, done))
      && avail + Lacks(keys, start, done) == free
    }

    /** How far it has come after `done` bytes. */
    ghost predicate Reached(flat: seq<Byte>, pages: set<int>, avail: nat, offset: nat, done: nat) {
      && done <= |data| && offset == start + done && (0 < done < |data| ==> offset % 4096 == 0)
      && forall look {:trigger Inside(ChangePart, look)} :: Inside(ChangePart, look) ==>
           flat == Written(was, start, data, done) && Filled(pages, avail, done)
    }

    /** The bytes that fit into the page after the first `done`. */
    ghost function Fitting(done: nat): nat
      requires done <= |data|
    {
      var room := 4096 - (start + done) % 4096;
      if room < |data| - done then room else |data| - done
    }

    /** The page after the first `done` bytes and the chunk that goes there. */
    lemma NextPage(pages: set<int>, avail: nat, done: nat)
      requires done < |data| && Filled(pages, avail, done) && (done > 0 ==> (start + done) % 4096 == 0)
      ensures var i, count := (start + done) / 4096, Fitting(done);
              && After(start, done) == i && After(start, done + count) == i + 1 && (i in pages <==> i in keys)
              && Lacks(keys, start, done + count) == Lacks(keys, start, done) + (if i in pages then 0 else 1)
    {
      AfterChunk(start, done, Fitting(done));
    }

    /** The chunk has been written. */
    lemma Goes(flat: seq<Byte>, pages: set<int>, avail: nat, done: nat,
               flat': seq<Byte>, pages': set<int>, avail': nat, offset': nat, count: nat)
      requires done < |data| && Reached(flat, pages, avail, start + done, done) && count == Fitting(done) &&
               offset' == start + done + count
      requires var i := (start + done) / 4096; pages' == pages + {i} && avail' == avail - if i in pages then 0 else 1
      requires flat' == Overwrite(flat, start + done, data[done..][..count])
      ensures Reached(flat', pages', avail', offset', done + count)
    {
      assert flat' == Written(was, start, data, done + count) by {
        assert Inside(ChangePart, true);
        Chunk(was, start, data, done, count);
      }
      assert Filled(pages', avail', done + count) by {
        assert Inside(ChangePart, true);
        NextPage(pages, avail, done);
      }
    }

    /** The next page is missing and cannot be had: the write lacks too many. */
    lemma Fails(flat: seq<Byte>, pages: set<int>, done: nat)
      requires done < |data| && Reached(flat, pages, 0, start + done, done) && (start + done) / 4096 !in pages
      ensures Lacks(keys, start, |data|) > free
    {
      assert Inside(ChangePart, true);
      NextPage(pages, 0, done);
      GapsGrow(keys, start / 4096, After(start, done + Fitting(done)), After(start, |data|));
    }

    lemma Ends(flat: seq<Byte>, pages: set<int>, avail: nat, done: nat)
      requires Reached(flat, pages, avail, start + done, done)
      ensures done <= |data| && flat == Written(was, start, data, done) && Lacks(keys, start, done) <= free
    {
      assert Inside(ChangePart, true);
    }
  }

  datatype Result = Done(count: nat) | NoPage | IoError

  /** FSS_SET, FSS_CUR and FSS_END. */
  datatype Whence = Set | Current | End

  class File {
    const index: I.Index
    var bytes: map<Node, seq<Byte>>
    var size: nat
    var offset: nat
    var avail: nat

    /** The file as a flat string. */
    ghost var flat: seq<Byte>

    /** The pages make up the flat string. */
    ghost predicate Sound()
      reads this`flat, this`bytes, this`size, index`at
    {
      var pages := PagesOf(index.at, bytes);
      Backed(index.at, bytes) && Clean(pages, size) && flat == FlatOf(pages, size)
    }

    /** The same, as a whole. */
    ghost predicate Held()
      reads this`flat, this`bytes, this`size, index`at
    {
      forall look {:trigger Inside(PagesPart, look)} :: Inside(PagesPart, look) ==> Sound()
    }

    ghost predicate Valid()
      reads this`flat, this`bytes, this`size, index, index.mm, index.mm.tree, index.mm.tree.nodes
    {
      |flat| == size && index.Valid() && Held()
    }

    /** The pages that exist. */
    ghost function Pages(): set<int>
      reads index`at
    {
      index.at.Keys
    }

    constructor (free: nat)
      ensures Valid() && flat == [] && offset == 0 && avail == free && Pages() == {}
      ensures fresh(index) && fresh(index.mm) && fresh(index.mm.tree) && index.mm.tree.nodes == {}
    {
      index := new I.Index();
      bytes, size, offset, avail := map[], 0, 0, free;
      flat := [];
    }

    /** The pages with one more of zeros: the file is as it was. */
    lemma Padded(at: map<int, Node>, i: int, n: Node)
      requires Backed(at, bytes) && Clean(PagesOf(at, bytes), size) && i !in at
      requires forall j {:trigger at[j]} :: j in at ==> at[j] != n
      ensures var pages := PagesOf(at[i := n], bytes[n := Zeros(4096)]);
              && Backed(at[i := n], bytes[n := Zeros(4096)])
              && Clean(pages, size) && FlatOf(pages, size) == FlatOf(PagesOf(at, bytes), size)
    {
      PagesPut(at, bytes, i, n, Zeros(4096));
      NewPage(PagesOf(at, bytes), size, i);
    }

    /** ramfs_alloc_page and its place in the tree. */
    method AddPage(i: int, p: Node?, s: Side) returns (node: Node)
      requires Valid() && index.Link(p, s, i) && i !in Pages()
      modifies this`bytes, index, index.mm, index.mm.tree, index.mm.tree.nodes
      ensures Valid() && fresh(index.mm.tree.nodes - old(index.mm.tree.nodes))
      ensures Pages() == old(Pages()) + {i} && index.at[i] == node
    {
      node := new Node();
      ghost var at := index.at;
      forall j | j in at ensures at[j] != node { index.NodesIn(j); }
      index.Put(node, i, p, s);
      assert Inside(PagesPart, true);
      Padded(at, i, node);
      bytes := bytes[node := Zeros(4096)];
    }

    /** The page of an index for a write; it fails exactly when the page is missing and no memory is left. */
    method FindPage(i: int) returns (n: Node?)
      requires Valid()
      modifies this`bytes, this`avail, index, index.mm, index.mm.tree, index.mm.tree.nodes
      ensures Valid() && fresh(index.mm.tree.nodes - old(index.mm.tree.nodes))
      ensures n == null <==> old(avail) == 0 && i !in old(Pages())
      ensures n != null ==> Pages() == old(Pages()) + {i} && index.at[i] == n
      ensures n != null ==> avail == old(avail) - if i in old(Pages()) then 0 else 1
      ensures n == null ==> Pages() == old(Pages()) && avail == 0
    {
      var found, p, s := index.Find(i);
      if found != null { return found; }
      if avail == 0 { return null; }
      avail := avail - 1;
      n := AddPage(i, p, s);
    }

    /** memcpy into the page, and the new offset and size. */
    method Store(n: Node, off: nat, data: seq<Byte>, ghost i: nat)
      requires Held() && |flat| == size && i in Pages() && index.at[i] == n && off + |data| <= 4096 &&
               offset == i * 4096 + off
      modifies this`flat, this`bytes, this`offset, this`size
      ensures Held() && |flat| == size && offset == old(offset) + |data|
      ensures flat == Overwrite(old(flat), old(offset), data)
    {
      assert Inside(PagesPart, true);
      StoredFlat(PagesOf(index.at, bytes), size, i, off, data);
      PagesStore(index.at, bytes, i, Stored(bytes[n], off, data));
      flat := Overwrite(flat, offset, data);
      bytes := bytes[n := Stored(bytes[n], off, data)];
      offset := offset + |data|;
      size := if offset > size then offset else size;
    }

    /**
     ramfs_write: the bytes that the page at the offset takes; it fails exactly when the page is missing and no
     memory is left.
     */
    method Write(data: seq<Byte>) returns (r: Result)
      requires Valid()
      modifies this, index, index.mm, index.mm.tree, index.mm.tree.nodes
      ensures Valid() && fresh(index.mm.tree.nodes - old(index.mm.tree.nodes))
      ensures var i, room := old(offset) / 4096, 4096 - old(offset) % 4096;
              r == if old(avail) == 0 && i !in old(Pages()) then NoPage
                  else Done(if room < |data| then room else |data|)
      ensures r == NoPage ==> flat == old(flat) && offset == old(offset) && Pages() == old(Pages()) && avail == 0
      ensures r.Done? ==> offset == old(offset) + r.count && flat == Overwrite(old(flat), old(offset), data[..r.count])
      ensures r.Done? ==> var i := old(offset) / 4096;
                Pages() == old(Pages()) + {i} && avail == old(avail) - if i in old(Pages()) then 0 else 1
    {
      var i, off := offset / 4096, offset % 4096;
      var sz := if 4096 - off < |data| then 4096 - off else |data|;
      var n := FindPage(i);
      if n == null { return NoPage; }
      Store(n, off, data[..sz], i);
      r := Done(sz);
    }

    /** ramfs_read: as many bytes as the page at the offset holds, and none at the end of the file. */
    method Read(want: nat) returns (data: seq<Byte>)
      requires Valid()
      modifies this`offset
      ensures |data| <= want && offset == old(offset) + |data|
      ensures data == [] <==> want == 0 || old(offset) >= size
      ensures var room := 4096 - old(offset) % 4096;
              var most := if room < want then room else want;
              |data| == if old(offset) >= size then 0 else if most < size - old(offset) then most
                  else size - old(offset)
      ensures data != [] ==> offset <= size && data == flat[old(offset)..offset]
    {
      if offset >= size { return []; }
      var rem, i, off := size - offset, offset / 4096, offset % 4096;
      var sz := if 4096 - off < want then 4096 - off else want;
      sz := if sz < rem then sz else rem;
      var n, p, s := index.Find(i);
      assert Inside(PagesPart, true);
      ReadPiece(PagesOf(index.at, bytes), size, offset, sz);
      if n != null {
        data := bytes[n][off..off + sz];
      } else {
        data := Zeros(sz);
      }
      offset := offset + sz;
    }

    /** vfs_seek_default. */
    method Seek(delta: int, whence: Whence)
      modifies this`offset
      ensures var base := match whence { case Set => 0 case Current => old(offset) case End => size };
              offset == if base + delta < 0 then 0 else base + delta
    {
      var target := delta;
      match whence {
        case Set =>
        case Current => target := target + offset;
        case End => target := target + size;
      }
      offset := if target > 0 then target else 0;
    }

    /** One round of write_file; it fails only when the rest would lack more pages than there are. */
    method WriteChunk(data: seq<Byte>, done: nat, ghost w: Plan) returns (r: Result)
      requires Valid() && w.Reached(flat, Pages(), avail, offset, done) && done < |data| && data == w.data
      modifies this, index, index.mm, index.mm.tree, index.mm.tree.nodes
      ensures Valid() && fresh(index.mm.tree.nodes - old(index.mm.tree.nodes)) && !r.IoError?
      ensures r == NoPage ==> w.Reached(flat, Pages(), avail, offset, done) && Lacks(w.keys, w.start, |data|) > w.free
      ensures r.Done? ==> 0 < r.count <= |data| - done && w.Reached(flat, Pages(), avail, offset, done + r.count)
    {
      r := Write(data[done..]);
      if r.Done? {
        assert r.count == w.Fitting(done);
        w.Goes(old(flat), old(Pages()), old(avail), done, flat, Pages(), avail, offset, r.count);
      } else {
        w.Fails(flat, Pages(), done);
      }
    }

    /**
     write_file: everything is written, or memory runs out after some of it; it fails exactly when too many
     pages are missing.
     */
    method WriteFile(data: seq<Byte>) returns (r: Result, ghost wr: nat)
      requires Valid()
      modifies this, index, index.mm, index.mm.tree, index.mm.tree.nodes
      ensures Valid() && fresh(index.mm.tree.nodes - old(index.mm.tree.nodes))
      ensures wr <= |data| && offset == old(offset) + wr && flat == Written(old(flat), old(offset), data, wr)
      ensures r == if old(Lacks(Pages(), offset, |data|) <= avail) then Done(0) else NoPage
      ensures r.Done? <==> wr == |data|
    {
      var done := 0;
      wr := 0;
      ghost var w := Plan(flat, Pages(), avail, offset, data);
      while done != |data|
        invariant 0 <= done == wr <= |data| && Valid() && fresh(index.mm.tree.nodes - old(index.mm.tree.nodes))
        invariant w.Reached(flat, Pages(), avail, offset, done)
        decreases |data| - done
      {
        var rc := WriteChunk(data, done, w);
        if rc == NoPage {
          w.Ends(flat, Pages(), avail, done);
          return NoPage, wr;
        }
        done := done + rc.count;
        wr := done;
      }
      w.Ends(flat, Pages(), avail, done);
      r := Done(0);
    }

    /** read_buf: the next n bytes, or an error when the file ends before. */
    method ReadBuf(n: nat) returns (r: Result, data: seq<Byte>)
      requires Valid()
      modifies this`offset
      ensures r == if n == 0 || old(offset) + n <= size then Done(0) else IoError
      ensures r.Done? ==> |data| == n && offset == old(offset) + n && (n > 0 ==> data == flat[old(offset)..offset])
    {
      data := [];
      while |data| < n
        invariant |data| <= n && offset == old(offset) + |data|
        invariant data != [] ==> offset <= size && data == flat[old(offset)..offset]
        decreases n - |data|
      {
        var chunk := Read(n - |data|);
        if chunk == [] { return IoError, data; }
        Joined(flat, old(offset), offset - |chunk|, offset);
        data := data + chunk;
      }
      r := Done(0);
    }

    /** Seeking back from the end and reading on gives the end of the file, if the file is that long. */
    method ReadTail(n: nat) returns (r: Result, data: seq<Byte>)
      requires Valid()
      modifies this`offset
      ensures r.Done? <==> n <= size
      ensures r.Done? ==> data == flat[size - n..] && offset == size
    {
      Seek(0 - n, End);
      r, data := ReadBuf(n);
    }

    /** What was written is read back, whatever the offset and however both loops cut it into pages. */
    method WriteThenRead(data: seq<Byte>) returns (r: Result, back: seq<Byte>)
      requires Valid()
      modifies this, index, index.mm, index.mm.tree, index.mm.tree.nodes
      ensures Valid() && r == if old(Lacks(Pages(), offset, |data|) <= avail) then Done(0) else NoPage
      ensures fresh(index.mm.tree.nodes - old(index.mm.tree.nodes))
      ensures r.Done? ==> back == data
    {
      ghost var start, wr := offset, 0;
      back := [];
      r, wr := WriteFile(data);
      if r.Done? {
        assert data[..wr] == data;
        Seek(0 - |data|, Current);
        r, back := ReadBuf(|data|);
        OverwriteRead(old(flat), start, data);
      }
    }
  }

  ghost function Written(s: seq<Byte>, offset: nat, data: seq<Byte>, wr: nat): seq<Byte>
    requires wr <= |data|
  {
    if wr == 0 then s else Overwrite(s, offset, data[..wr])
  }

  lemma Joined(s: seq<Byte>, a: nat, b: nat, c: nat)
    requires a <= b <= c <= |s|
    ensures s[a..c] == s[a..b] + s[b..c]
  {
  }

  /** One more chunk of the data. */
  lemma Chunk(s: seq<Byte>, offset: nat, data: seq<Byte>, done: nat, count: nat)
    requires done + count <= |data| && count > 0
    ensures Overwrite(Written(s, offset, data, done), offset + done, data[done..][..count]) == Written(s, offset,
            data, done + count)
  {
    var a, b := data[..done], data[done..][..count];
    assert a + b == data[..done + count];
    if done > 0 {
      OverwriteConcat(s, offset, a, b);
    } else {
      assert b == data[..done + count];
    }
  }
}
