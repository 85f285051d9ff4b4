/** fs.c at work: the bitmap allocator, bmap, itrunc, readi and writei over the volume, and the
chunking loops of file.c. */
module FileSystem {
  import opened Types
  import opened FsTree
  import opened FsVolume
  import opened FileBytes
  import opened FileIo

  const BPB: nat := BSIZE * 8

  class FileSystem {
    const meta: nat
    var addrs: map<nat, Addrs>
    var size: map<nat, uint>
    var ind: seq<PtrBlock>
    var data: seq<DataBlock>
    var used: seq<bool>

    ghost function V(): Volume
      reads this
    {
      Volume(Tree(addrs, ind), data, used)
    }

    /** The volume is conserved. */
    ghost predicate TreeOk()
      reads this
    {
      Ok(V(), meta)
    }

    ghost predicate Valid()
      reads this
    {
      TreeOk() && size.Keys == addrs.Keys && forall i :: i in size ==> size[i] <= MAXBYTES
    }

    /** Valid, and with zeros behind the end of every file. */
    ghost predicate Tidy()
      reads this
    {
      Valid() && ZeroTail(V(), size)
    }

    /** The bytes of file ino. */
    ghost function FileAt(ino: nat): seq<Byte>
      requires Valid() && ino in size
      reads this
    {
      Contents(V(), size, ino)
    }

    /** A volume in which every inode is empty and only the metadata blocks are used. */
    constructor (meta: nat, n: nat, inodes: set<nat>)
      requires 0 < meta <= n
      ensures Tidy() && this.meta == meta && |used| == n && addrs.Keys == inodes
      ensures forall i :: i in inodes ==> FileAt(i) == []
    {
      this.meta := meta;
      addrs := map i | i in inodes :: NoAddrs();
      size := map i | i in inodes :: 0;
      ind, data, used := seq(n, i => ZeroPtrs()), seq(n, i => ZeroData()), seq(n, i => i < meta);
      new;
      forall u | ValidSlot(V().t, u) ensures Ptr(V().t, u) == 0 { NothingHeld(V().t, u); }
    }

    /** balloc: the lowest free block, marked used and zeroed.  ops is the number of file system operations
        that are running; log_write panics if there is none. */
    method Balloc(ops: nat) returns (r: Mapped)
      requires |ind| == |data| == |used|
      modifies this`ind, this`data, this`used
      ensures r.Mapped? || r == NoBlock(old(used))
      ensures ops == 0 ==> !r.Mapped?
      ensures r.OutsideTransaction? ==> ops == 0
      ensures r.Mapped? ==>
        && r.addr < |old(used)| && !old(used)[r.addr] && (forall b :: 0 <= b < r.addr ==> old(used)[b])
        && used == old(used)[r.addr := true]
        && ind == old(ind)[r.addr := ZeroPtrs()] && data == old(data)[r.addr := ZeroData()]
      ensures !r.Mapped? ==> used == old(used) && ind == old(ind) && data == old(data)
    {
      var b := 0;
      while b < |used|
        invariant used == old(used) && ind == old(ind) && data == old(data)
        invariant forall x :: 0 <= x < b && x < |used| ==> used[x]
      {
        var bi := 0;
        while bi < BPB && b + bi < |used|
          invariant 0 <= bi <= BPB
          invariant used == old(used) && ind == old(ind) && data == old(data)
          invariant forall x :: 0 <= x < b + bi && x < |used| ==> used[x]
        {
          if !used[b + bi] {
            if ops == 0 { return OutsideTransaction; }
            used := used[b + bi := true];
            ind, data := ind[b + bi := ZeroPtrs()], data[b + bi := ZeroData()];
            return Mapped(b + bi);
          }
          bi := bi + 1;
        }
        b := b + BPB;
      }
      return OutOfBlocks;
    }

    /** bfree; false is the panic "freeing free block". */
    method Bfree(b: nat) returns (ok: bool)
      requires b < |used|
      modifies this`used
      ensures ok == old(used)[b]
      ensures used == old(used)[b := false]
    {
      ok := used[b];
      used := used[b := false];
    }

    /** ip->addrs[i], allocated if it is empty; s is a slot below it. */
    method LoadAddr(ino: nat, i: nat, ops: nat, ghost s: Slot) returns (r: Mapped)
      requires TreeOk() && ValidSlot(V().t, s) && s.ino == ino && s.path[0] == i
      modifies this`addrs, this`ind, this`data, this`used
      ensures TreeOk() && ValidSlot(V().t, s) && Extends(old(V()), V(), s)
      ensures r.Mapped? || r == NoBlock(used)
      ensures r.Mapped? ==> r.addr == Ptr(V().t, Cut(s, 1)) != 0
      ensures ops == 0 || Ptr(old(V()).t, Cut(s, 1)) != 0 ==> V() == old(V())
      ensures Ptr(old(V()).t, Cut(s, 1)) != 0 ==> r.Mapped?
      ensures r.OutsideTransaction? ==> ops == 0
    {
      ghost var v := V();
      var addr := addrs[ino][i];
      assert Cut(s, 1).path == [i];
      ExtendsRefl(v, s);
      if addr == 0 {
        r := Balloc(ops);
        if !r.Mapped? { return; }
        addr := r.addr;
        addrs := addrs[ino := addrs[ino][i := addr]];
        FillExtends(v, V(), s, 1, addr, meta);
      }
      return Mapped(addr);
    }

    /** The entry of indirect block b on the way to slot s, k levels down: read at index rd and,
        if it is empty, allocated at index wr. */
    method LoadEntry(b: nat, rd: nat, wr: nat, ops: nat, ghost s: Slot, ghost k: nat, ghost v0: Volume) returns (r: Mapped)
      requires TreeOk() && ValidSlot(V().t, s) && 0 < k < |s.path| && Extends(v0, V(), s)
      requires b == Ptr(V().t, Cut(s, k)) != 0 && s.path[k] == rd == wr
      modifies this`ind, this`data, this`used
      ensures TreeOk() && ValidSlot(V().t, s) && Extends(v0, V(), s)
      ensures r.Mapped? || r == NoBlock(used)
      ensures r.Mapped? ==> r.addr == Ptr(V().t, Cut(s, k + 1)) != 0
      ensures ops == 0 || Ptr(old(V()).t, Cut(s, k + 1)) != 0 ==> V() == old(V())
      ensures Ptr(old(V()).t, Cut(s, k + 1)) != 0 ==> r.Mapped?
      ensures r.OutsideTransaction? ==> ops == 0
    {
      hide Extends, Ok, Ptr;
      ghost var v := V();
      EntryPtr(v, s, k, meta);
      var addr := ind[b][rd];
      if addr == 0 {
        r := Balloc(ops);
        if !r.Mapped? { return; }
        addr := r.addr;
        ind := ind[b := ind[b][wr := addr]];
        FillExtends(v, V(), s, k + 1, addr, meta);
        ExtendsTrans(v0, v, V(), s, meta);
      }
      return Mapped(addr);
    }

    /** bmap: the data block of file block n, allocated with its indirect blocks if missing.  When no
        operation is running, or the block is there, nothing changes. */
    method Bmap(ino: nat, n: nat, ops: nat) returns (r: Mapped)
      requires TreeOk() && ino in addrs
      modifies this`addrs, this`ind, this`data, this`used
      ensures TreeOk()
      ensures r.OutOfRange? <==> n >= MAXFILE
      ensures r.OutOfRange? ==> V() == old(V())
      ensures n < MAXFILE ==> Extends(old(V()), V(), Slot(ino, BlockPath(n)))
      ensures r.OutOfBlocks? ==> Full(used)
      ensures r.Overrun? ==> SAFEFILE <= n
      ensures r.OutsideTransaction? ==> ops == 0
      ensures r.Mapped? ==> n < SAFEFILE && r.addr == Ptr(V().t, Slot(ino, BlockPath(n))) != 0
      ensures n < MAXFILE && (ops == 0 || Reached(old(V()), ino, n)) ==> V() == old(V()) && r == StillMap(old(V()), ino, n)
    {
      hide Extends, Ok, Ptr, StillMap, Reached;
      if n >= MAXFILE { return OutOfRange; }
      ghost var v, s := V(), Slot(ino, BlockPath(n));
      assert Cut(s, |s.path|) == s;
      Way(v, ino, n);
      var bn := n;
      if bn < NDIRECT {
        r := LoadAddr(ino, bn, ops, s);
        return;
      }
      bn := bn - NDIRECT;
      if bn < NINDIRECT {
        r := LoadAddr(ino, NDIRECT, ops, s);
        if !r.Mapped? { return; }
        r := LoadEntry(r.addr, bn, bn, ops, s, 1, v);
        return;
      }
      bn := bn - NINDIRECT;
      if bn < NDBLINDIRECT {
        r := LoadAddr(ino, NDIRECT + 1, ops, s);
        if !r.Mapped? { return; }
        r := LoadEntry(r.addr, bn / NINDIRECT, bn / NINDIRECT, ops, s, 1, v);
        if !r.Mapped? { return; }
        r := LoadEntry(r.addr, bn % NINDIRECT, bn % NINDIRECT, ops, s, 2, v);
        return;
      }
      bn := bn - NDBLINDIRECT;
      r := BmapTriple(ino, bn, ops, s);
    }

    /** The triple indirect part of bmap, bn counted from the first triple indirect block. */
    method BmapTriple(ino: nat, bn: nat, ops: nat, ghost s: Slot) returns (r: Mapped)
      requires TreeOk() && ino in addrs && bn < NTPLINDIRECT
      requires s == Slot(ino, BlockPath(bn + NDIRECT + NINDIRECT + NDBLINDIRECT))
      modifies this`addrs, this`ind, this`data, this`used
      ensures TreeOk() && Extends(old(V()), V(), s)
      ensures !r.OutOfRange? && (r.OutOfBlocks? ==> Full(used)) && (r.OutsideTransaction? ==> ops == 0)
      ensures r.Overrun? ==> NDBLINDIRECT <= bn
      ensures r.Mapped? ==> bn < NDBLINDIRECT && r.addr == Ptr(V().t, s) != 0
      ensures var n := bn + NDIRECT + NINDIRECT + NDBLINDIRECT;
        ops == 0 || Reached(old(V()), ino, n) ==> V() == old(V()) && r == StillMap(old(V()), ino, n)
    {
      hide Extends, Ok, Ptr, StillMap, Reached;
      ghost var v := V();
      assert Cut(s, 4) == s;
      TripleIndexAgrees(bn);
      Way(v, ino, bn + NDIRECT + NINDIRECT + NDBLINDIRECT);
      r := LoadAddr(ino, NDIRECT + 2, ops, s);
      if !r.Mapped? { return; }
      r := LoadEntry(r.addr, bn / NDBLINDIRECT, bn / NDBLINDIRECT, ops, s, 1, v);
      if !r.Mapped? { return; }
      if bn / NINDIRECT >= NINDIRECT { return Overrun; }
      r := LoadEntry(r.addr, bn / NINDIRECT, bn % NDBLINDIRECT / NINDIRECT, ops, s, 2, v);
      if !r.Mapped? { return; }
      r := LoadEntry(r.addr, bn % NINDIRECT, bn % NINDIRECT, ops, s, 3, v);
    }

    /** The nested loops of itrunc below one indirect block b, which slot s holds: every entry's
        subtree is freed, then b itself. */
    method FreeBelow(b: nat, levels: nat, ghost s: Slot) returns (ok: bool)
      requires |ind| == |used| && Distinct(V().t) && ValidSlot(V().t, s)
      requires Inner(s) && levels == Height(s.path[0]) - |s.path| + 1
      requires b == Ptr(V().t, s) != 0 && AllUsed(V().t, s, used)
      modifies this`used
      ensures ok && Freed(V().t, s, old(used), used)
      decreases levels
    {
      ghost var t := V().t;
      HeldSplit(t, s, b);
      var a := ind[b];
      ok := true;
      var j := 0;
      while j < NINDIRECT
        invariant j <= NINDIRECT && ok && FreedUpTo(t, s, j, old(used), used)
      {
        ghost var c, u := Child(s, j), used;
        assert Parent(c) == s && Ptr(t, c) == a[j];
        if a[j] == 0 {
          ChildEmpty(t, s, j, old(used), u);
        } else {
          ChildUsed(t, s, j, old(used), u);
          HeldSplit(t, c, a[j]);
          if levels == 1 {
            LeafFreed(t, c, u);
            ok := Bfree(a[j]);
          } else {
            ok := FreeBelow(a[j], levels - 1, c);
          }
          ChildFreed(t, s, j, old(used), u, used);
        }
        j := j + 1;
      }
      RootFreed(t, s, old(used), used);
      ok := Bfree(b);
    }

    /** One entry of addrs in itrunc: its subtree is freed and the entry emptied.  t0 and used0
        are the tree and the bitmap itrunc started from. */
    method TruncAddr(ino: nat, i: nat, ghost t0: Tree, ghost used0: seq<bool>) returns (ok: bool)
      requires TreeOk() && ino in t0.addrs && i < NADDRS
      requires Truncated(t0, V().t, ino, i, used0, used)
      modifies this`addrs, this`used
      ensures ok && TreeOk() && Truncated(t0, V().t, ino, i + 1, used0, used)
      ensures ino in old(addrs) && addrs == old(addrs)[ino := old(addrs)[ino][i := 0]]
    {
      ghost var t, s, used1 := V().t, Slot(ino, [i]), used;
      ok := true;
      var b := addrs[ino][i];
      assert Ptr(t, s) == b;
      if b == 0 {
        EmptyFreed(t, s, used);
        assert addrs[ino][i := 0] == addrs[ino];
        assert ClearAddr(t, ino, i).addrs == t.addrs;
      } else {
        if i < NDIRECT {
          LeafFreed(t, s, used);
          ok := Bfree(b);
        } else {
          ok := FreeBelow(b, i - NDIRECT + 1, s);
        }
        addrs := addrs[ino := addrs[ino][i := 0]];
      }
      TruncateEntry(t0, t, ino, i, used0, used1, used, meta);
    }

    /** itrunc: exactly the blocks of the inode's tree become free, none of them twice, and no
        other inode's tree changes. */
    method Itrunc(ino: nat) returns (ok: bool)
      requires Valid() && ino in addrs
      modifies this`addrs, this`used, this`size
      ensures ok && Valid() && size == old(size)[ino := 0]
      ensures addrs == old(addrs)[ino := NoAddrs()]
      ensures |used| == |old(used)|
      ensures forall x: nat :: x < |used| ==> (used[x] <==> old(used)[x] && !HeldBy(old(V()).t, ino, x))
      ensures forall u :: ValidSlot(old(V()).t, u) ==>
                Ptr(V().t, u) == if u.ino == ino then 0 else Ptr(old(V()).t, u)
      ensures FileAt(ino) == [] && OthersSame(old(V()), V(), old(size), ino) && (old(Tidy()) ==> Tidy())
    {
      hide Conserved, Truncated, Ptr, HeldUnder, HeldBy, ValidSlot, ZeroTail, OthersSame, Contents;
      ghost var t := V().t;
      TruncatedNone(t, ino, used);
      ok := true;
      var i := 0;
      while i < NDIRECT
        invariant i <= NDIRECT && ok && TreeOk() && size == old(size)
        invariant Truncated(t, V().t, ino, i, old(used), used)
        invariant ino in addrs && addrs == old(addrs)[ino := addrs[ino]]
        invariant forall k :: 0 <= k < i ==> addrs[ino][k] == 0
      {
        ok := TruncAddr(ino, i, t, old(used));
        i := i + 1;
      }
      ok := TruncAddr(ino, NDIRECT, t, old(used));
      ok := TruncAddr(ino, NDIRECT + 1, t, old(used));
      ok := TruncAddr(ino, NDIRECT + 2, t, old(used));
      size := size[ino := 0];
      assert addrs[ino] == NoAddrs();
      TruncatedAll(t, V().t, ino, old(used), used);
      TruncatedFile(old(V()), V(), old(size), ino);
    }

    /** bmap for a transfer at byte offset off: what it does to the bytes is nothing. */
    method BmapAt(ino: nat, off: nat, ops: nat) returns (r: Mapped)
      requires TreeOk() && ino in addrs && off < MAXBYTES
      modifies this`addrs, this`ind, this`data, this`used
      ensures TreeOk() && addrs.Keys == old(addrs).Keys && Written(old(V()), V(), ino, off, [])
      ensures StopReason(r, used, off, ops) && MapsKept(old(V()), V(), ino, off / BSIZE, off / BSIZE + 1)
      ensures r.Mapped? ==> off / BSIZE < SAFEFILE && 0 < r.addr < |data| && r.addr == Ptr(V().t, Slot(ino, BlockPath(off / BSIZE)))
      ensures ops == 0 || Reached(old(V()), ino, off / BSIZE) ==> V() == old(V()) && r == StillMap(old(V()), ino, off / BSIZE)
    {
      hide MapsKept, Written, StillMap, Reached;
      ghost var v, s := V(), Slot(ino, BlockPath(off / BSIZE));
      r := Bmap(ino, off / BSIZE, ops);
      ExtendsMaps(v, V(), ino, off / BSIZE);
      AllocationWrites(v, V(), s, ino, off, meta);
      assert ValidSlot(V().t, s);
    }

    /** One round of readi: the piece of up to `left` bytes at off that lies in one block. */
    method ReadRound(ino: nat, off: nat, left: nat, ops: nat) returns (b: Mapped, piece: seq<Byte>)
      requires TreeOk() && ino in addrs && 0 < left && off + left <= MAXBYTES
      modifies this`addrs, this`ind, this`data, this`used
      ensures TreeOk() && addrs.Keys == old(addrs).Keys && Written(old(V()), V(), ino, off, [])
      ensures StopReason(b, used, off, ops)
      ensures b.Mapped? ==> off / BSIZE < SAFEFILE && piece == Bytes(old(V()), ino, off, PieceLen(off, left))
      ensures ops == 0 ==> V() == old(V()) && b == StillMap(old(V()), ino, off / BSIZE)
    {
      hide Ok, Ptr, BlockPath, Written, Bytes, StopReason, StillMap, Reached, MapsKept;
      ghost var v := V();
      b := BmapAt(ino, off, ops);
      if !b.Mapped? { return b, []; }
      var o := off % BSIZE;
      PieceRead(v, V(), ino, off, PieceLen(off, left), b.addr);
      piece := data[b.addr][o..o + PieceLen(off, left)];
    }

    /** One round of writei: src up to the end of one block goes to off. */
    method WriteRound(ino: nat, src: seq<Byte>, off: nat, ops: nat) returns (b: Mapped)
      requires TreeOk() && ino in addrs && src != [] && off + |src| <= MAXBYTES
      modifies this`addrs, this`ind, this`data, this`used
      ensures TreeOk() && addrs.Keys == old(addrs).Keys && StopReason(b, used, off, ops)
      ensures MapsKept(old(V()), V(), ino, off / BSIZE, off / BSIZE + 1)
      ensures b.Mapped? ==> off / BSIZE < SAFEFILE && Written(old(V()), V(), ino, off, src[..PieceLen(off, |src|)])
      ensures !b.Mapped? ==> Written(old(V()), V(), ino, off, [])
    {
      hide Ok, Ptr, BlockPath, Written, StopReason, StillMap, Reached, MapsKept, ByteAt;
      ghost var v := V();
      b := BmapAt(ino, off, ops);
      if !b.Mapped? { return; }
      ghost var v1 := V();
      var o, bytes := off % BSIZE, src[..PieceLen(off, |src|)];
      data := data[b.addr := Patch(data[b.addr], o, bytes)];
      PatchWrites(v1, V(), ino, off / BSIZE, o, bytes, meta);
      NothingThen(v, v1, V(), ino, off, bytes);
      MapsSame(v, v1, V(), ino, off / BSIZE, off / BSIZE + 1);
    }

    /** readi's loop over n bytes that lie within the file. */
    method ReadLoop(ino: nat, off0: nat, n: nat, ops: nat) returns (r: IoResult, dst: seq<Byte>)
      requires Valid() && ino in addrs && off0 + n <= size[ino]
      modifies this`addrs, this`ind, this`data, this`used
      ensures Valid() && addrs.Keys == old(addrs).Keys && Written(old(V()), V(), ino, off0, []) && !r.Rejected?
      ensures r.Count? ==> r.n == n && dst == Bytes(old(V()), ino, off0, n)
      ensures r.Count? && n > 0 ==> off0 + n <= SAFEFILE * BSIZE
      ensures r.Stopped? ==> !r.why.Mapped? && StopReason(r.why, used, size[ino], ops)
      ensures ops == 0 ==> V() == old(V()) && r == ReadOutcome(old(V()), ino, off0, n)
    {
      hide Ok, Ptr, BlockPath, Written, Bytes, StopReason, ReadStop, ReadOutcome, StillMap, BlockUp, PieceLen;
      ghost var v := V();
      NothingWritten(v, ino, off0);
      dst := [];
      var off, tot := off0, 0;
      ghost var next, e := off0 / BSIZE, BlockUp(off0 + n);
      BlockUpBound(off0 + n);
      NoBytes(v, ino, off0);
      Outcome(v, ino, off0, n);
      while tot < n
        invariant 0 <= tot <= n && off == off0 + tot && Valid() && addrs.Keys == old(addrs).Keys
        invariant Written(v, V(), ino, off0, []) && dst == Bytes(v, ino, off0, tot)
        invariant tot > 0 ==> off <= SAFEFILE * BSIZE
        invariant next == if tot < n then off / BSIZE else if n == 0 then off0 / BSIZE else e
        invariant ops == 0 ==> V() == v && ReadStop(v, ino, off0 / BSIZE, e) == ReadStop(v, ino, next, e)
      {
        ghost var v1 := V();
        var b, piece := ReadRound(ino, off, n - tot, ops);
        NothingMore(v, v1, V(), ino, off0, off);
        NextPiece(v, v1, ino, off0, n, tot, b);
        if !b.Mapped? {
          StopLater(b, used, off, size[ino], ops);
          return Stopped(b), dst;
        }
        dst := dst + piece;
        tot, off := tot + |piece|, off + |piece|;
        next := if tot < n then off / BSIZE else e;
      }
      if n > 0 { StopsNot(v, ino, e); }
      return Count(n), dst;
    }

    /** readi of a regular file: the bytes the inode shows, clipped at its size.  Reading a hole
        allocates blocks but no inode shows a different byte afterwards; when no operation is running it
        cannot, and what happens is ReadOutcome. */
    method Readi(ino: nat, off: uint, n0: uint, ops: nat) returns (r: IoResult, dst: seq<Byte>)
      requires Valid() && ino in addrs
      modifies this`addrs, this`ind, this`data, this`used
      ensures Valid() && addrs.Keys == old(addrs).Keys && Written(old(V()), V(), ino, off, [])
      ensures r.Rejected? <==> off > size[ino] || off + n0 >= UINT
      ensures r.Rejected? ==> V() == old(V())
      ensures r.Count? ==> r.n == Clipped(size[ino], off, n0) && dst == Bytes(old(V()), ino, off, r.n)
      ensures r.Count? && r.n > 0 ==> off + r.n <= SAFEFILE * BSIZE
      ensures r.Stopped? ==> !r.why.Mapped? && StopReason(r.why, used, size[ino], ops)
      ensures !r.Rejected? && ops == 0 ==>
        V() == old(V()) && r == ReadOutcome(old(V()), ino, off, Clipped(size[ino], off, n0))
    {
      hide Ok, Ptr, BlockPath, Written, Bytes, StopReason, ReadOutcome;
      NothingWritten(V(), ino, off);
      var n := n0;
      if off > size[ino] || off + n >= UINT { return Rejected, []; }
      if off + n > size[ino] { n := size[ino] - off; }
      r, dst := ReadLoop(ino, off, n, ops);
    }

    /** writei of a regular file: the bytes at off0 become src, every other byte of every inode
        stays, also when blocks are allocated on the way, and the size grows to cover them. */
    method Writei(ino: nat, src: seq<Byte>, off0: uint, n: uint, ops: nat) returns (r: IoResult)
      requires Valid() && ino in addrs && n <= |src|
      modifies this`addrs, this`ind, this`data, this`used, this`size
      ensures Valid() && addrs.Keys == old(addrs).Keys
      ensures r.Rejected? <==> off0 + n >= UINT || off0 + n > MAXBYTES
      ensures r.Rejected? ==> V() == old(V()) && size == old(size)
      ensures r.Count? ==>
        && r.n == n && Written(old(V()), V(), ino, off0, src[..n])
        && size == old(size)[ino := GrownSize(old(size)[ino], off0, n)]
      ensures r.Count? && n > 0 ==> off0 + n <= SAFEFILE * BSIZE
      ensures r.Count? ==> MapsKept(old(V()), V(), ino, off0 / BSIZE, BlockUp(off0 + n))
      ensures r.Stopped? ==>
        && !r.why.Mapped? && StopReason(r.why, used, off0 + n, ops) && size == old(size)
        && exists k :: 0 <= k < n && Written(old(V()), V(), ino, off0, src[..k])
    {
      hide Ok, Ptr, BlockPath, Written, StopReason, ByteAt, MapsKept, BlockUp, PieceLen;
      ghost var v := V();
      var off := off0;
      if off + n >= UINT { return Rejected; }
      if off + n > MAXBYTES { return Rejected; }
      NothingWritten(v, ino, off0);
      NothingMapped(v, ino, off0 / BSIZE, BlockUp(off0));
      var tot := 0;
      while tot < n
        invariant 0 <= tot <= n && off == off0 + tot && size == old(size)
        invariant Valid() && addrs.Keys == old(addrs).Keys
        invariant MapsKept(v, V(), ino, off0 / BSIZE, BlockUp(off))
        invariant Written(v, V(), ino, off0, src[..tot]) && (tot > 0 ==> off <= SAFEFILE * BSIZE)
      {
        ghost var v1 := V();
        var b := WriteRound(ino, src[tot..n], off, ops);
        if !b.Mapped? {
          WrittenNext(v, v1, V(), ino, off0, src, tot, 0);
          StopLater(b, used, off, off0 + n, ops);
          return Stopped(b);
        }
        var m := PieceLen(off, n - tot);
        PieceEnds(off, n - tot);
        assert src[tot..n][..m] == src[tot..tot + m];
        WritePiece(v, v1, V(), ino, off0, src, tot, m);
        tot, off := tot + m, off + m;
      }
      if n > 0 && off > size[ino] { size := size[ino := off]; }
      return Count(n);
    }

    /** The chunking loop of filewrite and pwrite: when nothing stops it, it is one writei of all
        n bytes; `done` bytes were written in any case.  Only the first chunk can be rejected: a
        chunk that was written ends too far below MAXBYTES for the next one to pass it. */
    method WriteChunks(ino: nat, src: seq<Byte>, off0: uint, n: nat) returns (r: IoResult, done: nat)
      requires Valid() && ino in addrs && ino in size && n <= |src| < UINT
      modifies this`addrs, this`ind, this`data, this`used, this`size
      ensures Valid() && addrs.Keys == old(addrs).Keys
      ensures done <= n && off0 + done < UINT && (r.Count? <==> done == n)
      ensures r.Count? ==>
        && r.n == n && Written(old(V()), V(), ino, off0, src[..n])
        && size == old(size)[ino := GrownSize(old(size)[ino], off0, n)]
        && MapsKept(old(V()), V(), ino, off0 / BSIZE, BlockUp(off0 + n))
      ensures r.Rejected? <==> TooFar(off0, n)
      ensures r.Rejected? ==> done == 0 && V() == old(V()) && size == old(size)
      ensures r.Stopped? ==>
        && !r.why.Mapped? && StopReason(r.why, used, off0 + n, 1)
        && exists k :: done <= k < n && Written(old(V()), V(), ino, off0, src[..k])
    {
      hide Valid, Written, StopReason, GrownSize, MapsKept, BlockUp;
      ghost var v := V();
      NothingWritten(v, ino, off0);
      NothingMapped(v, ino, off0 / BSIZE, BlockUp(off0));
      SizeChunk(size[ino], off0, 0, 0);
      var off: uint := off0;
      var i := 0;
      while i < n
        invariant i <= n && off == off0 + i && (i > 0 ==> !TooFar(off0, n) && off <= SAFEFILE * BSIZE)
        invariant i == 0 ==> V() == v && size == old(size)
        invariant Valid() && addrs.Keys == old(addrs).Keys && Written(v, V(), ino, off0, src[..i])
        invariant MapsKept(v, V(), ino, off0 / BSIZE, BlockUp(off))
        invariant ino in old(size) && size == old(size)[ino := GrownSize(old(size)[ino], off0, i)]
      {
        var n1 := n - i;
        if n1 > CHUNK { n1 := CHUNK; }
        ghost var v1 := V();
        r := Writei(ino, src[i..], off, n1, 1);
        if r.Rejected? { return r, i; }
        if r.Stopped? {
          ghost var k :| 0 <= k < n1 && Written(v1, V(), ino, off, src[i..][..k]);
          ChunkWritten(v, v1, V(), ino, off0, src, i, k);
          StopLater(r.why, used, off + n1, off0 + n, 1);
          return r, i;
        }
        ChunkWritten(v, v1, V(), ino, off0, src, i, n1);
        SizeChunk(old(size)[ino], off0, i, n1);
        ChunkMapped(v, v1, V(), ino, off0, off, n1);
        i, off := i + n1, off + n1;
      }
      return Count(n), n;
    }
  }

  /** An open file on an inode (file.h). */
  class File {
    const ino: nat
    const readable: bool
    const writable: bool
    var off: uint

    constructor (ino: nat, readable: bool, writable: bool, off: uint)
      ensures this.ino == ino && this.readable == readable && this.writable == writable && this.off == off
    {
      this.ino, this.readable, this.writable, this.off := ino, readable, writable, off;
    }

    /** filewrite at the file's own offset, which advances over what was written. */
    method Write(fs: FileSystem, src: seq<Byte>, n: int) returns (r: IoResult)
      requires fs.Valid() && ino in fs.addrs && n <= |src| < UINT
      modifies this`off, fs`addrs, fs`ind, fs`data, fs`used, fs`size
      ensures fs.Valid() && ino in fs.addrs
      ensures r.Count? ==>
        && r.n == n && off == old(off) + n && Written(old(fs.V()), fs.V(), ino, old(off), src[..n])
        && fs.size == old(fs.size)[ino := GrownSize(old(fs.size)[ino], old(off), n)]
      ensures r.Count? && old(fs.Tidy()) ==>
        && fs.Tidy() && OthersSame(old(fs.V()), fs.V(), old(fs.size), ino)
        && fs.FileAt(ino) == WriteSeq(old(fs.FileAt(ino)), old(off), src[..n])
      ensures r.Rejected? <==> !writable || n < 0 || TooFar(old(off), n)
      ensures r.Rejected? ==> fs.V() == old(fs.V()) && fs.size == old(fs.size) && off == old(off)
      ensures r.Stopped? ==>
        && 0 <= n && !r.why.Mapped? && StopReason(r.why, fs.used, old(off) + n, 1)
        && exists k :: old(off) <= off <= old(off) + k < old(off) + n && Written(old(fs.V()), fs.V(), ino, old(off), src[..k])
    {
      if !writable { return Rejected; }
      if n < 0 { return Rejected; }
      var done;
      r, done := fs.WriteChunks(ino, src, off, n);
      if r.Count? { FileWritten(old(fs.V()), fs.V(), old(fs.size), fs.size, ino, off, src[..n]); }
      off := off + done;
    }

    /** fileread at the file's own offset, which advances over what was read.  fileread runs in no
        operation of its own; ops is how many others are running.  With none, a hole stops it. */
    method Read(fs: FileSystem, n: uint, ops: nat) returns (r: IoResult, dst: seq<Byte>)
      requires fs.Valid() && ino in fs.addrs
      modifies this`off, fs`addrs, fs`ind, fs`data, fs`used
      ensures fs.Valid() && ino in fs.addrs && Written(old(fs.V()), fs.V(), ino, old(off), [])
      ensures r.Rejected? <==> !readable || old(off) > fs.size[ino] || old(off) + n >= UINT
      ensures r.Count? ==>
        && readable && r.n == Clipped(fs.size[ino], old(off), n)
        && dst == ReadSeq(old(fs.FileAt(ino)), old(off), n) && |dst| == r.n && off == old(off) + r.n
      ensures r.Count? ==> fs.FileAt(ino) == old(fs.FileAt(ino)) && (old(fs.Tidy()) ==> fs.Tidy())
      ensures !r.Count? ==> off == old(off)
      ensures !r.Rejected? && ops == 0 ==>
        fs.V() == old(fs.V()) && r == ReadOutcome(old(fs.V()), ino, old(off), Clipped(fs.size[ino], old(off), n))
      ensures ops > 0 ==> r != Stopped(OutsideTransaction)
    {
      if !readable {
        NothingWritten(fs.V(), ino, off);
        return Rejected, [];
      }
      r, dst := fs.Readi(ino, off, n, ops);
      if r.Count? { ReadIsRead(old(fs.V()), fs.V(), fs.size, ino, off, n, off); }
      if r.Count? && r.n > 0 { off := off + r.n; }
    }

    /** pwrite: as filewrite, at a given offset; the file's own offset stays. */
    method Pwrite(fs: FileSystem, src: seq<Byte>, n: int, at: uint) returns (r: IoResult)
      requires fs.Valid() && ino in fs.addrs && n <= |src| < UINT
      modifies fs`addrs, fs`ind, fs`data, fs`used, fs`size
      ensures fs.Valid() && ino in fs.addrs
      ensures r.Count? ==>
        && r.n == n && at + n < UINT && Written(old(fs.V()), fs.V(), ino, at, src[..n])
        && fs.size == old(fs.size)[ino := GrownSize(old(fs.size)[ino], at, n)]
        && MapsKept(old(fs.V()), fs.V(), ino, at / BSIZE, BlockUp(at + n))
      ensures r.Count? && old(fs.Tidy()) ==>
        && fs.Tidy() && OthersSame(old(fs.V()), fs.V(), old(fs.size), ino)
        && fs.FileAt(ino) == WriteSeq(old(fs.FileAt(ino)), at, src[..n])
      ensures r.Rejected? <==> !writable || n < 0 || TooFar(at, n)
      ensures r.Rejected? ==> fs.V() == old(fs.V()) && fs.size == old(fs.size)
      ensures r.Stopped? ==>
        && 0 <= n && !r.why.Mapped? && StopReason(r.why, fs.used, at + n, 1)
        && exists k :: 0 <= k < n && Written(old(fs.V()), fs.V(), ino, at, src[..k])
    {
      if !writable { return Rejected; }
      if n < 0 { return Rejected; }
      var done;
      r, done := fs.WriteChunks(ino, src, at, n);
      if r.Count? { FileWritten(old(fs.V()), fs.V(), old(fs.size), fs.size, ino, at, src[..n]); }
    }

    /** pread: as fileread, at a given offset. */
    method Pread(fs: FileSystem, n: uint, at: uint, ops: nat) returns (r: IoResult, dst: seq<Byte>)
      requires fs.Valid() && ino in fs.addrs
      modifies fs`addrs, fs`ind, fs`data, fs`used
      ensures fs.Valid() && ino in fs.addrs && Written(old(fs.V()), fs.V(), ino, at, [])
      ensures r.Rejected? <==> !readable || at > fs.size[ino] || at + n >= UINT
      ensures r.Count? ==>
        && readable && r.n == Clipped(fs.size[ino], at, n)
        && dst == ReadSeq(old(fs.FileAt(ino)), at, n) && |dst| == r.n
      ensures r.Count? ==> fs.FileAt(ino) == old(fs.FileAt(ino)) && (old(fs.Tidy()) ==> fs.Tidy())
      ensures !r.Rejected? && ops == 0 ==>
        fs.V() == old(fs.V()) && r == ReadOutcome(old(fs.V()), ino, at, Clipped(fs.size[ino], at, n))
      ensures ops > 0 ==> r != Stopped(OutsideTransaction)
    {
      if !readable {
        NothingWritten(fs.V(), ino, at);
        return Rejected, [];
      }
      r, dst := fs.Readi(ino, at, n, ops);
      if r.Count? { ReadIsRead(old(fs.V()), fs.V(), fs.size, ino, at, n, at); }
    }
  }

  /** A write behind the end of an empty file leaves a hole, and reading the hole while no operation is
      running panics. */
  method ReadHole(fs: FileSystem, f: File) returns (w: IoResult, r: IoResult)
    requires fs.Valid() && f.ino in fs.addrs && f.readable && f.writable
    requires fs.size[f.ino] == 0 && fs.addrs[f.ino] == NoAddrs()
    modifies fs`addrs, fs`ind, fs`data, fs`used, fs`size
    ensures !Full(fs.used) ==> w == Count(1) && r == Stopped(OutsideTransaction)
  {
    assert Flat(fs.V(), f.ino, 0) == 0;
    w := f.Pwrite(fs, [7], 1, 512);
    ghost var v := fs.V();
    assert w.Count? ==> Flat(v, f.ino, 0) == 0;
    var dst;
    r, dst := f.Pread(fs, 1, 0, 0);
    if w.Count? {
      assert FirstMissing(v, f.ino, 0, 0);
      ReadOutsideExactly(v, f.ino, 0, 1);
    }
  }
}
