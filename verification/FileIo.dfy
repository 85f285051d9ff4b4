/** What bmap, readi and writei come to, round by round: why they stop, which blocks they touch, and what
happens to a read when no file system operation is running. */
module FileIo {
  import opened Types
  import opened FsTree
  import opened FsVolume
  import opened FileBytes

  /** What bmap and balloc come to: a block number, or the way they stop.  Overrun is the read of
      a word behind the indirect block, OutsideTransaction log_write's panic when no file system
      operation is running. */
  datatype Mapped = Mapped(addr: nat) | OutOfBlocks | OutOfRange | Overrun | OutsideTransaction

  /** What readi and writei come to. Rejected is a return of -1. */
  datatype IoResult = Count(n: nat) | Rejected | Stopped(why: Mapped)

  /** The bytes filewrite puts into one transaction. */
  const CHUNK: nat := (MAXOPBLOCKS - 1 - 1 - 2) / 2 * 512

  /** The first chunk passes the end of the largest file. */
  predicate TooFar(off: nat, n: nat) {
    n > 0 && off + (if n < CHUNK then n else CHUNK) > MAXBYTES
  }

  // ----- reading while no operation is running -----

  /** What an allocation comes to when no operation is running. */
  function NoBlock(used: seq<bool>): Mapped {
    if Full(used) then OutOfBlocks else OutsideTransaction
  }

  /** File block n is there, and where bmap can reach it. */
  predicate Reached(v: Volume, ino: nat, n: nat)
    requires n < MAXFILE
  {
    n < SAFEFILE && Flat(v, ino, n) != 0
  }

  /** File block n lacks a pointer that bmap needs: the data block or an indirect block above it; behind the
      safe part, the triple indirect block or the one below it. */
  predicate Lacks(v: Volume, ino: nat, n: nat)
    requires n < MAXFILE
  {
    if n < SAFEFILE then Flat(v, ino, n) == 0 else Ptr(v.t, Slot(ino, BlockPath(n)[..2])) == 0
  }

  /** What bmap comes to without changing anything. */
  function StillMap(v: Volume, ino: nat, n: nat): Mapped
    requires n < MAXFILE
  {
    if Lacks(v, ino, n) then NoBlock(v.used) else if n < SAFEFILE then Mapped(Flat(v, ino, n)) else Overrun
  }

  /** The pointers on the way to file block n, and what bmap makes of them. */
  lemma Way(v: Volume, ino: nat, n: nat)
    requires n < MAXFILE && ino in v.t.addrs
    ensures var s := Slot(ino, BlockPath(n));
      && (Reached(v, ino, n) ==> forall k :: 0 < k <= |s.path| ==> Ptr(v.t, Cut(s, k)) != 0)
      && (forall k :: 0 < k <= |s.path| && (n < SAFEFILE || k <= 2) && Ptr(v.t, Cut(s, k)) == 0 ==>
            StillMap(v, ino, n) == NoBlock(v.used))
      && (n < SAFEFILE && Ptr(v.t, s) != 0 ==> StillMap(v, ino, n) == Mapped(Ptr(v.t, s)))
      && (n >= SAFEFILE && Ptr(v.t, Cut(s, 2)) != 0 ==> StillMap(v, ino, n) == Overrun)
  {
    var s := Slot(ino, BlockPath(n));
    hide Ptr, BlockPath;
    assert Cut(s, |s.path|) == s;
    forall k | 0 < k <= |s.path| && Ptr(v.t, Cut(s, k)) == 0
      ensures Ptr(v.t, s) == 0 && (n >= SAFEFILE && k <= 2 ==> Ptr(v.t, Cut(s, 2)) == 0)
    {
      WayEmpty(v.t, s, k, |s.path|);
      if n >= SAFEFILE && k <= 2 { WayEmpty(v.t, s, k, 2); }
    }
  }

  /** The number of blocks that reach up to byte off. */
  function BlockUp(off: nat): nat { (off + BSIZE - 1) / BSIZE }

  /** readi's length. */
  function Clipped(size: nat, off: nat, n: nat): nat
    requires off <= size
  {
    if off + n > size then size - off else n
  }

  /** The first of file blocks b..e at which a read stops, and why. */
  function ReadStop(v: Volume, ino: nat, b: nat, e: nat): Option<Mapped>
    requires e <= MAXFILE
    decreases e - b
  {
    if b >= e then None
    else if StillMap(v, ino, b).Mapped? then ReadStop(v, ino, b + 1, e)
    else Some(StillMap(v, ino, b))
  }

  /** What a read of n bytes comes to when no operation is running. */
  function ReadOutcome(v: Volume, ino: nat, off: nat, n: nat): IoResult
    requires off + n <= MAXBYTES
  {
    if n == 0 then Count(0)
    else match ReadStop(v, ino, off / BSIZE, BlockUp(off + n)) case None => Count(n) case Some(m) => Stopped(m)
  }

  lemma Outcome(v: Volume, ino: nat, off: nat, n: nat)
    requires off + n <= MAXBYTES
    ensures n == 0 ==> ReadOutcome(v, ino, off, n) == Count(0)
    ensures n > 0 ==> var stop := ReadStop(v, ino, off / BSIZE, BlockUp(off + n));
      && (stop == None ==> ReadOutcome(v, ino, off, n) == Count(n))
      && (stop.Some? ==> ReadOutcome(v, ino, off, n) == Stopped(stop.value))
  {
  }

  /** Block b is the first of its range that is not there. */
  ghost predicate FirstMissing(v: Volume, ino: nat, a: nat, b: nat)
    requires b < MAXFILE
  {
    Lacks(v, ino, b) && forall k :: a <= k < b ==> Reached(v, ino, k)
  }

  lemma {:induction false} StopsAt(v: Volume, ino: nat, a: nat, e: nat)
    requires e <= MAXFILE
    ensures ReadStop(v, ino, a, e) == Some(OutsideTransaction) <==>
      !Full(v.used) && exists b :: a <= b < e && FirstMissing(v, ino, a, b)
    decreases e - a
  {
    hide Flat, Full, BlockPath, Ptr;
    if a < e {
      StopsAt(v, ino, a + 1, e);
      if Reached(v, ino, a) {
        assert !FirstMissing(v, ino, a, a);
        forall b | a < b < e ensures FirstMissing(v, ino, a, b) <==> FirstMissing(v, ino, a + 1, b) {}
        assert StillMap(v, ino, a).Mapped?;
        var a1 := a + 1;
        if !Full(v.used) && exists b :: a1 <= b < e && FirstMissing(v, ino, a1, b) {
          var x :| a1 <= x < e && FirstMissing(v, ino, a1, x);
          assert FirstMissing(v, ino, a, x);
        }
      } else {
        assert forall b :: a < b < e ==> !FirstMissing(v, ino, a, b);
        assert FirstMissing(v, ino, a, a) <==> Lacks(v, ino, a);
      }
    }
  }

  /** A read with no operation running panics in log_write exactly if a block is free and the range comes to
      a missing block before it comes to anything else that stops it. */
  lemma ReadOutsideExactly(v: Volume, ino: nat, off: nat, n: nat)
    requires off + n <= MAXBYTES
    ensures ReadOutcome(v, ino, off, n) == Stopped(OutsideTransaction) <==>
      n > 0 && !Full(v.used) && exists b :: off / BSIZE <= b < BlockUp(off + n) && FirstMissing(v, ino, off / BSIZE, b)
  {
    if n > 0 { StopsAt(v, ino, off / BSIZE, BlockUp(off + n)); }
  }

  /** One round of readi at offset off, in a range that ends at byte `end`. */
  lemma NextStop(v: Volume, ino: nat, off: nat, end: nat, b: Mapped)
    requires off < end <= MAXBYTES
    ensures b == StillMap(v, ino, off / BSIZE) ==>
      var next := if b.Mapped? then ReadStop(v, ino, off / BSIZE + 1, BlockUp(end)) else Some(b);
      ReadStop(v, ino, off / BSIZE, BlockUp(end)) == next
  {
    hide StillMap;
    assert off / BSIZE < BlockUp(end);
  }

  /** One round of readi, tot bytes into a transfer of n bytes from off0. */
  lemma NextPiece(v: Volume, v1: Volume, ino: nat, off0: nat, n: nat, tot: nat, b: Mapped)
    requires tot < n && off0 + n <= MAXBYTES && Written(v, v1, ino, off0, [])
    ensures var off, e := off0 + tot, BlockUp(off0 + n);
      var m := PieceLen(off, n - tot);
      && e <= MAXFILE && off / BSIZE < e && 0 < m <= n - tot && (off / BSIZE < SAFEFILE ==> off + m <= SAFEFILE * BSIZE)
      && Bytes(v, ino, off0, tot + m) == Bytes(v, ino, off0, tot) + Bytes(v1, ino, off, m)
      && (b == StillMap(v, ino, off / BSIZE) ==>
            ReadStop(v, ino, off / BSIZE, e) ==
              if !b.Mapped? then Some(b) else ReadStop(v, ino, if tot + m < n then (off + m) / BSIZE else e, e))
  {
    hide StillMap, ReadStop, Bytes, PieceLen;
    var off := off0 + tot;
    PieceEnds(off, n - tot);
    MoreBytes(v, v1, ino, off0, tot, PieceLen(off, n - tot));
    NextStop(v, ino, off, off0 + n, b);
  }

  lemma StopsNot(v: Volume, ino: nat, e: nat)
    requires e <= MAXFILE
    ensures ReadStop(v, ino, e, e) == None
  {
  }

  /** Behind a piece of m bytes inside one block. */
  lemma BlockUpAfter(off: nat, m: nat)
    requires 0 < m <= BSIZE - off % BSIZE
    ensures BlockUp(off + m) == off / BSIZE + 1
  {
  }

  /** The bytes that are left in the block of offset off. */
  function PieceLen(off: nat, left: nat): nat {
    if left < BSIZE - off % BSIZE then left else BSIZE - off % BSIZE
  }

  /** A piece is not empty, and ends at the end of the transfer or where the next block begins. */
  lemma PieceEnds(off: nat, left: nat)
    requires left > 0
    ensures var m := PieceLen(off, left);
      && 0 < m <= left && BlockUp(off + m) == off / BSIZE + 1
      && (m < left ==> (off + m) / BSIZE == off / BSIZE + 1)
      && (off / BSIZE < SAFEFILE ==> off + m <= SAFEFILE * BSIZE)
  {
    var m := PieceLen(off, left);
    assert off == off / BSIZE * BSIZE + off % BSIZE;
    BlockUpAfter(off, m);
  }

  lemma BlockUpBound(off: nat)
    ensures off <= MAXBYTES ==> BlockUp(off) <= MAXFILE
  {
  }

  lemma NoBytes(v: Volume, ino: nat, off: nat)
    ensures off <= MAXBYTES ==> Bytes(v, ino, off, 0) == []
  {
  }

  /** The bytes read so far and the next piece; v1 shows what v shows. */
  lemma MoreBytes(v: Volume, v1: Volume, ino: nat, off0: nat, tot: nat, m: nat)
    requires off0 + tot + m <= MAXBYTES && Written(v, v1, ino, off0, [])
    ensures Bytes(v, ino, off0, tot + m) == Bytes(v, ino, off0, tot) + Bytes(v1, ino, off0 + tot, m)
  {
    hide ByteAt;
  }

  lemma NothingThen(v: Volume, v1: Volume, v2: Volume, ino: nat, off: nat, bytes: seq<Byte>)
    requires Written(v, v1, ino, off, []) && Written(v1, v2, ino, off, bytes)
    ensures Written(v, v2, ino, off, bytes)
  {
    hide ByteAt;
  }

  /** One round of writei joins what was written before. */
  lemma WritePiece(v: Volume, v1: Volume, v2: Volume, ino: nat, off0: nat, src: seq<Byte>, tot: nat, m: nat)
    requires tot + m <= |src| && BlockUp(off0 + tot + m) == (off0 + tot) / BSIZE + 1
    requires var off := off0 + tot;
      && Written(v, v1, ino, off0, src[..tot]) && MapsKept(v, v1, ino, off0 / BSIZE, BlockUp(off))
      && Written(v1, v2, ino, off, src[tot..tot + m]) && MapsKept(v1, v2, ino, off / BSIZE, off / BSIZE + 1)
    ensures Written(v, v2, ino, off0, src[..tot + m]) && MapsKept(v, v2, ino, off0 / BSIZE, BlockUp(off0 + tot + m))
  {
    hide Written, MapsKept;
    var off := off0 + tot;
    WrittenNext(v, v1, v2, ino, off0, src, tot, m);
    MapsTrans(v, v1, v2, ino, off0 / BSIZE, BlockUp(off), off / BSIZE, off / BSIZE + 1);
  }

  lemma NothingMapped(v: Volume, ino: nat, a: nat, b: nat)
    ensures MapsKept(v, v, ino, a, b)
  {
  }

  /** One round of the chunking loop. */
  lemma ChunkMapped(v: Volume, v1: Volume, v2: Volume, ino: nat, off0: nat, off: nat, n: nat)
    requires off0 <= off && MapsKept(v, v1, ino, off0 / BSIZE, BlockUp(off)) && MapsKept(v1, v2, ino, off / BSIZE, BlockUp(off + n))
    ensures MapsKept(v, v2, ino, off0 / BSIZE, BlockUp(off + n))
  {
    hide MapsKept;
    MapsTrans(v, v1, v2, ino, off0 / BSIZE, BlockUp(off), off / BSIZE, BlockUp(off + n));
  }

  /** Writing data moves no pointer. */
  lemma MapsSame(v: Volume, v1: Volume, v2: Volume, ino: nat, a: nat, b: nat)
    requires MapsKept(v, v1, ino, a, b) && v2.t == v1.t
    ensures MapsKept(v, v2, ino, a, b)
  {
  }

  lemma FileWritten(v: Volume, v': Volume, size: map<nat, uint>, size': map<nat, uint>, ino: nat, off: nat, src: seq<Byte>)
    requires ino in size && size[ino] <= MAXBYTES && Written(v, v', ino, off, src) && off + |src| < UINT
    requires size' == size[ino := GrownSize(size[ino], off, |src|)] && size'[ino] <= MAXBYTES
    ensures OthersSame(v, v', size, ino)
    ensures ZeroTail(v, size) ==>
      && Contents(v', size', ino) == WriteSeq(Contents(v, size, ino), off, src)
      && ZeroTail(v', size')
  {
    hide Written, ZeroTail, WriteSeq, Contents;
    WriteKeepsOthers(v, v', size, ino, off, src);
    if ZeroTail(v, size) { WriteIsWrite(v, v', size, ino, off, src); }
  }

  lemma {:induction false} NothingHeld(t: Tree, u: Slot)
    requires forall i :: i in t.addrs ==> t.addrs[i] == NoAddrs()
    ensures Ptr(t, u) == 0
    decreases |u.path|
  {
    if |u.path| > 1 { NothingHeld(t, Parent(u)); }
  }

  /** Why a transfer that reaches no further than `end` stopped: the disk is full, it needs a block
      behind the part of the triple indirect tree that bmap can address, or it needs a new block while
      no operation is running. */
  predicate StopReason(r: Mapped, used: seq<bool>, end: nat, ops: nat) {
    && !r.OutOfRange? && (r.OutsideTransaction? ==> ops == 0)
    && (r.OutOfBlocks? ==> Full(used))
    && (r.Overrun? ==> SAFEFILE * BSIZE <= end)
  }

  /** The piece of the data block is what the inode shows there. */
  lemma PieceRead(v: Volume, v': Volume, ino: nat, off: nat, m: nat, b: nat)
    requires off + m <= MAXBYTES && 0 < m <= BSIZE - off % BSIZE && Written(v, v', ino, off, [])
    requires 0 < b < |v'.data| && b == Ptr(v'.t, Slot(ino, BlockPath(off / BSIZE)))
    ensures Bytes(v, ino, off, m) == v'.data[b][off % BSIZE..off % BSIZE + m]
  {
    hide Ptr, BlockPath;
    var o := off % BSIZE;
    forall k | off <= k < off + m ensures ByteAt(v, ino, k) == v'.data[b][o + (k - off)] {
      assert k / BSIZE == off / BSIZE && k % BSIZE == o + (k - off);
      assert ByteAt(v', ino, k) == ByteAt(v, ino, k);
    }
  }

  lemma NothingMore(v: Volume, v1: Volume, v2: Volume, ino: nat, off0: nat, off: nat)
    requires Written(v, v1, ino, off0, []) && Written(v1, v2, ino, off, [])
    ensures Written(v, v2, ino, off0, [])
  {
    hide ByteAt;
  }

  /** One round of writei: the next m bytes continue the bytes written so far. */
  lemma WrittenNext(v: Volume, v1: Volume, v2: Volume, ino: nat, off0: nat, src: seq<Byte>, tot: nat, m: nat)
    requires tot + m <= |src|
    requires Written(v, v1, ino, off0, src[..tot]) && Written(v1, v2, ino, off0 + tot, src[tot..tot + m])
    ensures Written(v, v2, ino, off0, src[..tot + m])
  {
    WrittenTrans(v, v1, v2, ino, off0, src[..tot], src[tot..tot + m]);
    assert src[..tot] + src[tot..tot + m] == src[..tot + m];
  }

  lemma StopLater(r: Mapped, used: seq<bool>, end: nat, end': nat, ops: nat)
    requires StopReason(r, used, end, ops) && end <= end'
    ensures StopReason(r, used, end', ops)
  {
  }

  lemma SizeChunk(size: uint, off: uint, i: nat, n: nat)
    requires off + i + n < UINT
    ensures GrownSize(size, off, 0) == size
    ensures GrownSize(GrownSize(size, off, i), off + i, n) == GrownSize(size, off, i + n)
  {
  }

  /** One round of the chunking loop. */
  lemma ChunkWritten(v: Volume, v1: Volume, v2: Volume, ino: nat, off0: nat, src: seq<Byte>, i: nat, k: nat)
    requires i + k <= |src|
    requires Written(v, v1, ino, off0, src[..i]) && Written(v1, v2, ino, off0 + i, src[i..][..k])
    ensures Written(v, v2, ino, off0, src[..i + k])
  {
    assert src[i..][..k] == src[i..i + k];
    WrittenNext(v, v1, v2, ino, off0, src, i, k);
  }

  /** No block is free. */
  predicate Full(used: seq<bool>) {
    forall b :: 0 <= b < |used| ==> used[b]
  }
}
