/** A volume as values: pointers, file data and the free bitmap, with the bytes each inode
shows and the two ways operations change them: allocation along one path, and block writes.
A block is 512 bytes that fs.c reads either as 128 pointers or as data; the two readings are
kept in `t.ind` and `data`, and `Distinct` shows that no block is ever used both ways. */
module FsVolume {
  import opened Types
  import opened FsTree

  type DataBlock = d: seq<Byte> | |d| == BSIZE witness seq(BSIZE, i => 0)

  function ZeroData(): (z: DataBlock)
    ensures forall i :: 0 <= i < BSIZE ==> z[i] == 0
  {
    seq(BSIZE, i => 0)
  }

  datatype Volume = Volume(t: Tree, data: seq<DataBlock>, used: seq<bool>)

  ghost predicate Ok(v: Volume, meta: nat) {
    Conserved(v.t, v.used, meta) && |v.data| == |v.used|
  }

  /** The byte that inode ino shows at offset off; a hole shows zero. */
  function ByteAt(v: Volume, ino: nat, off: nat): Byte
    requires off < MAXFILE * BSIZE
  {
    var b := Ptr(v.t, Slot(ino, BlockPath(off / BSIZE)));
    if b == 0 || b >= |v.data| then 0 else v.data[b][off % BSIZE]
  }

  ghost predicate SameBytes(v: Volume, v': Volume, ino: nat) {
    forall off: nat :: off < MAXFILE * BSIZE ==> ByteAt(v', ino, off) == ByteAt(v, ino, off)
  }

  predicate PrefixOf(u: Slot, s: Slot) {
    u.ino == s.ino && u.path <= s.path
  }

  /** v' has the pointers of v and, on the way to slot s, possibly new ones to blocks that were
      free and are zeroed. */
  ghost predicate Extends(v: Volume, v': Volume, s: Slot) {
    && v'.t.addrs.Keys == v.t.addrs.Keys
    && |v'.used| == |v.used| && |v'.t.ind| == |v.t.ind| && |v'.data| == |v.data| == |v.used|
    && (forall u :: ValidSlot(v.t, u) && Ptr(v.t, u) != 0 ==> Ptr(v'.t, u) == Ptr(v.t, u))
    && (forall u :: ValidSlot(v.t, u) && Ptr(v'.t, u) != Ptr(v.t, u) ==>
          PrefixOf(u, s) && Fresh(v, v', Ptr(v'.t, u)))
    && (forall b :: 0 <= b < |v.used| && v.used[b] ==> v'.used[b] && v'.data[b] == v.data[b])
  }

  predicate Fresh(v: Volume, v': Volume, b: nat)
    requires |v'.used| == |v.used| == |v'.data|
  {
    b < |v.used| && !v.used[b] && v'.data[b] == ZeroData()
  }

  lemma ExtendsRefl(v: Volume, s: Slot)
    requires |v.data| == |v.used|
    ensures Extends(v, v, s)
  {
  }

  lemma ExtendsTrans(v: Volume, v1: Volume, v2: Volume, s: Slot, meta: nat)
    requires Ok(v1, meta) && Extends(v, v1, s) && Extends(v1, v2, s)
    ensures Extends(v, v2, s)
  {
    forall u | ValidSlot(v.t, u)
      ensures Ptr(v.t, u) != 0 ==> Ptr(v2.t, u) == Ptr(v.t, u)
      ensures Ptr(v2.t, u) != Ptr(v.t, u) ==> PrefixOf(u, s) && Fresh(v, v2, Ptr(v2.t, u))
    {
      assert ValidSlot(v1.t, u);
      if Ptr(v1.t, u) != Ptr(v.t, u) {
        assert Fresh(v, v1, Ptr(v1.t, u));
      }
    }
  }

  /** The first k indices of a slot's path. */
  function Cut(s: Slot, k: nat): Slot
    requires k <= |s.path|
  {
    Slot(s.ino, s.path[..k])
  }

  /** Filling an empty slot on the way to s is such an extension. */
  lemma FillExtends(v: Volume, v': Volume, s: Slot, k: nat, x: nat, meta: nat)
    requires Ok(v, meta) && ValidSlot(v.t, s) && 0 < k <= |s.path| && Ptr(v.t, Cut(s, k)) == 0
    requires x < |v.used| && !v.used[x]
    requires k > 1 ==> 0 < Ptr(v.t, Cut(s, k - 1)) < |v.t.ind| && Parent(Cut(s, k)) == Cut(s, k - 1)
    requires v' == Volume(Fill(v.t, Cut(s, k), x), v.data[x := ZeroData()], v.used[x := true])
    ensures Ok(v', meta) && Extends(v, v', s) && Ptr(v'.t, Cut(s, k)) == x != 0
  {
    FillConserves(v.t, v.used, meta, Cut(s, k), x);
  }

  /** The entry of an indirect block on the way to slot s, k levels down. */
  lemma EntryPtr(v: Volume, s: Slot, k: nat, meta: nat)
    requires Ok(v, meta) && ValidSlot(v.t, s) && 0 < k < |s.path| && Ptr(v.t, Cut(s, k)) != 0
    ensures |v.t.ind| == |v.data| == |v.used| && Ptr(v.t, Cut(s, k)) < |v.t.ind| && s.path[k] < NINDIRECT
    ensures Ptr(v.t, Cut(s, k + 1)) == v.t.ind[Ptr(v.t, Cut(s, k))][s.path[k]]
    ensures Parent(Cut(s, k + 1)) == Cut(s, k) && Last(Cut(s, k + 1)) == s.path[k]
  {
    assert Cut(s, k + 1).path[..k] == Cut(s, k).path;
    assert ValidSlot(v.t, Cut(s, k));
  }

  /** Allocation is invisible: no inode shows a different byte. */
  lemma ExtendsSameBytes(v: Volume, v': Volume, s: Slot, ino: nat, meta: nat)
    requires Ok(v, meta) && Ok(v', meta) && Extends(v, v', s)
    ensures SameBytes(v, v', ino)
  {
    forall off: nat | off < MAXFILE * BSIZE ensures ByteAt(v', ino, off) == ByteAt(v, ino, off) {
      var u := Slot(ino, BlockPath(off / BSIZE));
      if ino in v.t.addrs {
        assert ValidSlot(v.t, u);
        if Ptr(v'.t, u) != Ptr(v.t, u) { assert Fresh(v, v', Ptr(v'.t, u)); }
      }
    }
  }

  /** The data block of file block n of inode ino, 0 for a hole. */
  function Flat(v: Volume, ino: nat, n: nat): nat
    requires n < MAXFILE
  {
    Ptr(v.t, Slot(ino, BlockPath(n)))
  }

  /** The flat map from file blocks to data blocks is injective across all inodes. */
  lemma FlatInjective(v: Volume, ino: nat, n: nat, i: nat, m: nat, meta: nat)
    requires Ok(v, meta) && n < MAXFILE && m < MAXFILE && Flat(v, ino, n) == Flat(v, i, m) != 0
    ensures ino == i && n == m
  {
    assert ValidSlot(v.t, Slot(ino, BlockPath(n))) && ValidSlot(v.t, Slot(i, BlockPath(m)));
    BlockPathInjective(n, m);
  }

  /** bmap of one file block keeps every other file block's mapping, holes included, and its own
      if it was mapped. */
  lemma MappingKept(v: Volume, v': Volume, ino: nat, n: nat, i: nat, m: nat)
    requires n < MAXFILE && m < MAXFILE && Extends(v, v', Slot(ino, BlockPath(n)))
    requires i != ino || m != n || Flat(v, ino, n) != 0
    ensures Flat(v', i, m) == Flat(v, i, m)
  {
    var u := Slot(i, BlockPath(m));
    if i in v.t.addrs && Ptr(v'.t, u) != Ptr(v.t, u) {
      assert ValidSlot(v.t, u) && u.path <= BlockPath(n);
      assert u.path == BlockPath(n);
      BlockPathInjective(m, n);
      assert false;
    }
  }

  /** Every file block but a..b of inode ino has the mapping it had: what was a hole is one still. */
  ghost predicate MapsKept(v: Volume, v': Volume, ino: nat, a: nat, b: nat) {
    forall i: nat, m: nat :: m < MAXFILE && !(i == ino && a <= m < b) ==> Flat(v', i, m) == Flat(v, i, m)
  }

  lemma ExtendsMaps(v: Volume, v': Volume, ino: nat, n: nat)
    requires n < MAXFILE && Extends(v, v', Slot(ino, BlockPath(n)))
    ensures MapsKept(v, v', ino, n, n + 1)
  {
    hide Extends;
    forall i: nat, m: nat | m < MAXFILE && !(i == ino && n <= m < n + 1) ensures Flat(v', i, m) == Flat(v, i, m) {
      MappingKept(v, v', ino, n, i, m);
    }
  }

  lemma MapsTrans(v: Volume, v1: Volume, v2: Volume, ino: nat, a: nat, b: nat, a': nat, b': nat)
    requires MapsKept(v, v1, ino, a, b) && MapsKept(v1, v2, ino, a', b') && a <= a' && b <= b'
    requires a' <= b || b <= a
    ensures MapsKept(v, v2, ino, a, b')
  {
    hide Flat;
  }

  /** Below a missing pointer on the way to slot s, every pointer is missing. */
  lemma WayEmpty(t: Tree, s: Slot, k: nat, j: nat)
    requires ValidSlot(t, s) && 0 < k <= j <= |s.path| && Ptr(t, Cut(s, k)) == 0
    ensures Ptr(t, Cut(s, j)) == 0
  {
    assert ValidSlot(t, Cut(s, j)) && Under(Cut(s, k), Cut(s, j));
    EmptyBelow(t, Cut(s, k), Cut(s, j));
  }

  /** d with m bytes of src put at o. */
  function Patch(d: DataBlock, o: nat, src: seq<Byte>): (r: DataBlock)
    requires o + |src| <= BSIZE
    ensures forall i :: 0 <= i < BSIZE ==> r[i] == if o <= i < o + |src| then src[i - o] else d[i]
  {
    d[..o] + src + d[o + |src|..]
  }

  /** Writing into the block of one file block changes those bytes of that inode, nothing else. */
  lemma PatchBytes(v: Volume, v': Volume, ino: nat, bn: nat, o: nat, src: seq<Byte>, ino': nat, off: nat, meta: nat)
    requires Ok(v, meta) && ino in v.t.addrs && bn < MAXFILE && o + |src| <= BSIZE && off < MAXFILE * BSIZE
    requires var b := Ptr(v.t, Slot(ino, BlockPath(bn)));
             0 < b < |v.data| && v' == v.(data := v.data[b := Patch(v.data[b], o, src)])
    ensures Ok(v', meta)
    ensures ByteAt(v', ino', off) ==
            if ino' == ino && bn * BSIZE + o <= off < bn * BSIZE + o + |src| then src[off - bn * BSIZE - o]
            else ByteAt(v, ino', off)
  {
    var s, u := Slot(ino, BlockPath(bn)), Slot(ino', BlockPath(off / BSIZE));
    if ino' in v.t.addrs && Ptr(v.t, u) == Ptr(v.t, s) {
      assert ValidSlot(v.t, s) && ValidSlot(v.t, u) && s == u;
      BlockPathInjective(bn, off / BSIZE);
    }
  }

  // ----- freeing -----

  predicate Under(s: Slot, u: Slot) {
    u.ino == s.ino && s.path <= u.path
  }

  /** Block x is held by a slot at or below s. */
  ghost predicate HeldUnder(t: Tree, s: Slot, x: nat) {
    x != 0 && exists u :: ValidSlot(t, u) && Under(s, u) && Ptr(t, u) == x
  }

  function Child(s: Slot, j: nat): Slot {
    Slot(s.ino, s.path + [j])
  }

  /** Everything held below s is held by s itself or below one of its children. */
  lemma HeldSplit(t: Tree, s: Slot, x: nat)
    requires ValidSlot(t, s)
    ensures HeldUnder(t, s, x) <==>
            (x != 0 && Ptr(t, s) == x) ||
            (Inner(s) && exists j :: 0 <= j < NINDIRECT && HeldUnder(t, Child(s, j), x))
  {
    hide Ptr;
    if HeldUnder(t, s, x) {
      var u :| ValidSlot(t, u) && Under(s, u) && Ptr(t, u) == x;
      if u.path != s.path {
        BelowChild(s, u);
        assert HeldUnder(t, Child(s, u.path[|s.path|]), x);
      } else {
        assert u == s;
      }
    }
    if Ptr(t, s) == x { assert Under(s, s); }
    forall j | 0 <= j < NINDIRECT && HeldUnder(t, Child(s, j), x) ensures HeldUnder(t, s, x) {
      var u :| ValidSlot(t, u) && Under(Child(s, j), u) && Ptr(t, u) == x;
      AboveChild(s, j, u);
    }
  }

  lemma BelowChild(s: Slot, u: Slot)
    requires ValidPath(u.path) && s.path != [] && Under(s, u) && u.path != s.path
    ensures |s.path| < |u.path| && Inner(s) && u.path[|s.path|] < NINDIRECT && Under(Child(s, u.path[|s.path|]), u)
  {
    assert u.path[0] == s.path[0];
  }

  lemma AboveChild(s: Slot, j: nat, u: Slot)
    requires Under(Child(s, j), u)
    ensures Under(s, u)
  {
    assert s.path <= Child(s, j).path;
  }

  /** Below an empty slot every slot is empty. */
  lemma {:induction false} EmptyBelow(t: Tree, s: Slot, u: Slot)
    requires ValidSlot(t, u) && s.path != [] && Under(s, u) && Ptr(t, s) == 0
    ensures Ptr(t, u) == 0
    decreases |u.path|
  {
    if u.path != s.path {
      ParentValid(t, u);
      assert Under(s, Parent(u));
      EmptyBelow(t, s, Parent(u));
    }
  }

  /** A slot has an indirect block below it when it is not at the bottom level. */
  predicate Inner(s: Slot) {
    ValidPath(s.path) && |s.path| <= Height(s.path[0])
  }

  /** The bitmap after exactly the blocks held under s have been freed. */
  ghost predicate Freed(t: Tree, s: Slot, used: seq<bool>, used': seq<bool>) {
    && |used'| == |used|
    && forall x: nat :: x < |used| ==> (used'[x] <==> used[x] && !HeldUnder(t, s, x))
  }

  /** t with addrs[i] of inode ino emptied. */
  function ClearAddr(t: Tree, ino: nat, i: nat): Tree
    requires ino in t.addrs && i < NADDRS
  {
    t.(addrs := t.addrs[ino := t.addrs[ino][i := 0]])
  }

  lemma {:induction false} ClearPtr(t: Tree, ino: nat, i: nat, u: Slot)
    requires ino in t.addrs && i < NADDRS && ValidSlot(t, u)
    ensures Ptr(ClearAddr(t, ino, i), u) == if Under(Slot(ino, [i]), u) then 0 else Ptr(t, u)
    decreases |u.path|
  {
    if |u.path| > 1 {
      ParentValid(t, u);
      ClearPtr(t, ino, i, Parent(u));
    }
  }

  /** Freeing a whole subtree and emptying its root keeps the volume conserved. */
  lemma ClearConserves(t: Tree, used: seq<bool>, used': seq<bool>, meta: nat, ino: nat, i: nat)
    requires Conserved(t, used, meta) && ino in t.addrs && i < NADDRS
    requires Freed(t, Slot(ino, [i]), used, used')
    ensures Conserved(ClearAddr(t, ino, i), used', meta)
  {
    var t', s := ClearAddr(t, ino, i), Slot(ino, [i]);
    forall u | ValidSlot(t, u) ensures Ptr(t', u) == if Under(s, u) then 0 else Ptr(t, u) {
      ClearPtr(t, ino, i, u);
    }
    assert forall u :: ValidSlot(t', u) <==> ValidSlot(t, u);
    forall b | meta <= b < |used'| && used'[b] ensures Owned(t', b) {
      var u :| ValidSlot(t, u) && Ptr(t, u) == b;
      assert ValidSlot(t', u);
    }
  }

  /** Every block held under s is marked used. */
  ghost predicate AllUsed(t: Tree, s: Slot, used: seq<bool>) {
    forall x: nat :: HeldUnder(t, s, x) ==> x < |used| && used[x]
  }

  /** x is held below one of the first j children of s. */
  ghost predicate HeldBefore(t: Tree, s: Slot, j: int, x: nat) {
    exists i :: 0 <= i < j && HeldUnder(t, Child(s, i), x)
  }

  /** The bitmap when the subtrees of the first j children of s have been freed. */
  ghost predicate FreedUpTo(t: Tree, s: Slot, j: int, used: seq<bool>, used': seq<bool>) {
    && |used'| == |used|
    && forall x: nat :: x < |used| ==> (used'[x] <==> used[x] && !HeldBefore(t, s, j, x))
  }

  /** The next child's blocks are still used: no earlier child holds any of them. */
  lemma ChildUsed(t: Tree, s: Slot, j: nat, used: seq<bool>, used': seq<bool>)
    requires Distinct(t) && ValidSlot(t, s) && Inner(s) && j < NINDIRECT
    requires AllUsed(t, s, used) && FreedUpTo(t, s, j, used, used')
    ensures AllUsed(t, Child(s, j), used')
  {
    forall x: nat | HeldUnder(t, Child(s, j), x) ensures x < |used'| && used'[x] {
      HeldSplit(t, s, x);
      var u :| ValidSlot(t, u) && Under(Child(s, j), u) && Ptr(t, u) == x;
      assert u.path[|s.path|] == j;
      forall i, w | 0 <= i < j && ValidSlot(t, w) && Under(Child(s, i), w) ensures Ptr(t, w) != x {
        assert w.path[|s.path|] == i;
      }
    }
  }

  lemma HeldBeforeNext(t: Tree, s: Slot, j: nat, x: nat)
    ensures HeldBefore(t, s, j + 1, x) <==> HeldBefore(t, s, j, x) || HeldUnder(t, Child(s, j), x)
  {
  }

  /** One round of the loop over the children: an empty child holds nothing. */
  lemma ChildEmpty(t: Tree, s: Slot, j: nat, used: seq<bool>, used': seq<bool>)
    requires FreedUpTo(t, s, j, used, used') && Ptr(t, Child(s, j)) == 0
    ensures FreedUpTo(t, s, j + 1, used, used')
  {
    forall x: nat ensures !HeldUnder(t, Child(s, j), x) {
      forall u | ValidSlot(t, u) && Under(Child(s, j), u) ensures Ptr(t, u) == 0 {
        EmptyBelow(t, Child(s, j), u);
      }
    }
  }

  /** One round of the loop over the children: the child's subtree has been freed. */
  lemma ChildFreed(t: Tree, s: Slot, j: nat, used: seq<bool>, used1: seq<bool>, used2: seq<bool>)
    requires FreedUpTo(t, s, j, used, used1) && Freed(t, Child(s, j), used1, used2)
    ensures FreedUpTo(t, s, j + 1, used, used2)
  {
    forall x: nat | x < |used| ensures used2[x] <==> used[x] && !HeldBefore(t, s, j + 1, x) {
      HeldBeforeNext(t, s, j, x);
    }
  }

  /** Freeing the block of a bottom-level slot frees all that is held under it. */
  lemma LeafFreed(t: Tree, s: Slot, used: seq<bool>)
    requires ValidSlot(t, s) && !Inner(s) && 0 < Ptr(t, s) < |used| && AllUsed(t, s, used)
    ensures used[Ptr(t, s)] && Freed(t, s, used, used[Ptr(t, s) := false])
  {
    assert Under(s, s);
    forall x: nat ensures HeldUnder(t, s, x) <==> x == Ptr(t, s) { HeldSplit(t, s, x); }
  }

  /** After all children, s still holds a used block, and freeing it completes the subtree. */
  lemma RootFreed(t: Tree, s: Slot, used: seq<bool>, used': seq<bool>)
    requires Distinct(t) && ValidSlot(t, s) && Inner(s) && 0 < Ptr(t, s) < |used|
    requires AllUsed(t, s, used) && FreedUpTo(t, s, NINDIRECT, used, used')
    ensures used'[Ptr(t, s)] && Freed(t, s, used, used'[Ptr(t, s) := false])
  {
    var b := Ptr(t, s);
    assert Under(s, s) && HeldUnder(t, s, b);
    forall i | 0 <= i < NINDIRECT ensures !HeldUnder(t, Child(s, i), b) {
      forall u | ValidSlot(t, u) && Under(Child(s, i), u) ensures Ptr(t, u) != b {
        assert u != s;
      }
    }
    forall x: nat | x < |used|
      ensures used'[b := false][x] <==> used[x] && !HeldUnder(t, s, x)
    {
      HeldSplit(t, s, x);
    }
  }

  /** Block x is held somewhere in the tree of inode ino. */
  ghost predicate HeldBy(t: Tree, ino: nat, x: nat) {
    HeldUnder(t, Slot(ino, []), x)
  }

  /** The first i entries of addrs have been freed and emptied. */
  ghost predicate Truncated(t: Tree, t': Tree, ino: nat, i: nat, used: seq<bool>, used': seq<bool>) {
    && t'.ind == t.ind && t'.addrs.Keys == t.addrs.Keys && |used'| == |used|
    && (forall u :: ValidSlot(t, u) ==>
          Ptr(t', u) == if u.ino == ino && u.path[0] < i then 0 else Ptr(t, u))
    && (forall x: nat :: x < |used| ==> (used'[x] <==> used[x] && !HeldFrom(t, ino, i, x)))
  }

  /** x is held under one of the first i entries of addrs. */
  ghost predicate HeldFrom(t: Tree, ino: nat, i: nat, x: nat) {
    exists k :: 0 <= k < i && HeldUnder(t, Slot(ino, [k]), x)
  }

  lemma TruncatedNone(t: Tree, ino: nat, used: seq<bool>)
    ensures Truncated(t, t, ino, 0, used, used)
  {
  }

  /** The subtree under an entry not yet reached is still the original one. */
  lemma SameUnder(t: Tree, t1: Tree, ino: nat, i: nat, used: seq<bool>, used1: seq<bool>, x: nat)
    requires Truncated(t, t1, ino, i, used, used1) && i < NADDRS
    ensures HeldUnder(t1, Slot(ino, [i]), x) <==> HeldUnder(t, Slot(ino, [i]), x)
  {
    assert forall u :: ValidSlot(t, u) <==> ValidSlot(t1, u);
    assert forall u :: ValidSlot(t, u) && Under(Slot(ino, [i]), u) ==> Ptr(t1, u) == Ptr(t, u);
  }

  lemma TruncateEntry(t: Tree, t1: Tree, ino: nat, i: nat, used: seq<bool>, used1: seq<bool>, used2: seq<bool>, meta: nat)
    requires Conserved(t1, used1, meta) && ino in t.addrs && i < NADDRS
    requires Truncated(t, t1, ino, i, used, used1) && Freed(t1, Slot(ino, [i]), used1, used2)
    ensures Conserved(ClearAddr(t1, ino, i), used2, meta)
    ensures Truncated(t, ClearAddr(t1, ino, i), ino, i + 1, used, used2)
  {
    ClearConserves(t1, used1, used2, meta, ino, i);
    hide Conserved, HeldUnder, HeldFrom, Ptr;
    var t2 := ClearAddr(t1, ino, i);
    forall u | ValidSlot(t, u)
      ensures Ptr(t2, u) == if u.ino == ino && u.path[0] < i + 1 then 0 else Ptr(t, u)
    {
      assert ValidSlot(t1, u);
      ClearPtr(t1, ino, i, u);
    }
    forall x: nat | x < |used| ensures used2[x] <==> used[x] && !HeldFrom(t, ino, i + 1, x) {
      SameUnder(t, t1, ino, i, used, used1, x);
      HeldFromNext(t, ino, i, x);
    }
  }

  lemma HeldFromNext(t: Tree, ino: nat, i: nat, x: nat)
    ensures HeldFrom(t, ino, i + 1, x) <==> HeldFrom(t, ino, i, x) || HeldUnder(t, Slot(ino, [i]), x)
  {
    hide HeldUnder;
  }

  /** An empty entry holds nothing. */
  lemma EmptyFreed(t: Tree, s: Slot, used: seq<bool>)
    requires s.path != [] && Ptr(t, s) == 0
    ensures Freed(t, s, used, used)
  {
    forall u | ValidSlot(t, u) && Under(s, u) ensures Ptr(t, u) == 0 { EmptyBelow(t, s, u); }
  }

  lemma HeldIsFrom(t: Tree, ino: nat, x: nat)
    ensures HeldBy(t, ino, x) <==> HeldFrom(t, ino, NADDRS, x)
  {
    if HeldBy(t, ino, x) {
      var u :| ValidSlot(t, u) && Under(Slot(ino, []), u) && Ptr(t, u) == x;
      assert Under(Slot(ino, [u.path[0]]), u);
      assert HeldUnder(t, Slot(ino, [u.path[0]]), x);
    }
    forall k | 0 <= k < NADDRS && HeldUnder(t, Slot(ino, [k]), x) ensures HeldBy(t, ino, x) {
      var u :| ValidSlot(t, u) && Under(Slot(ino, [k]), u) && Ptr(t, u) == x;
      assert Under(Slot(ino, []), u);
    }
  }

  lemma TruncatedAll(t: Tree, t': Tree, ino: nat, used: seq<bool>, used': seq<bool>)
    requires Truncated(t, t', ino, NADDRS, used, used')
    ensures |used'| == |used|
    ensures forall x: nat :: x < |used| ==> (used'[x] <==> used[x] && !HeldBy(t, ino, x))
    ensures forall u :: ValidSlot(t, u) ==> Ptr(t', u) == if u.ino == ino then 0 else Ptr(t, u)
  {
    forall x: nat ensures HeldBy(t, ino, x) <==> HeldFrom(t, ino, NADDRS, x) { HeldIsFrom(t, ino, x); }
  }

  function NoAddrs(): (z: Addrs)
    ensures forall i :: 0 <= i < NADDRS ==> z[i] == 0
  {
    seq(NADDRS, i => 0)
  }

  // ----- reading and writing ranges -----

  const MAXBYTES: nat := MAXFILE * BSIZE

  /** v' shows what v shows, except `bytes` at off in inode ino. */
  ghost predicate Written(v: Volume, v': Volume, ino: nat, off: nat, bytes: seq<Byte>) {
    forall i: nat, k: nat :: k < MAXBYTES ==>
      ByteAt(v', i, k) == if i == ino && off <= k < off + |bytes| then bytes[k - off] else ByteAt(v, i, k)
  }

  /** n bytes of inode ino from off. */
  function Bytes(v: Volume, ino: nat, off: nat, n: nat): (r: seq<Byte>)
    requires off + n <= MAXBYTES
    ensures |r| == n
  {
    seq<Byte>(n, i requires 0 <= i < n => ByteAt(v, ino, off + i))
  }

  /** A range written is the range read back; a disjoint range, or another inode, is untouched. */
  lemma ReadBack(v: Volume, v': Volume, ino: nat, off: nat, bytes: seq<Byte>, i: nat, o: nat, n: nat)
    requires Written(v, v', ino, off, bytes) && off + |bytes| <= MAXBYTES && o + n <= MAXBYTES
    ensures Bytes(v', ino, off, |bytes|) == bytes
    ensures i != ino || o + n <= off || off + |bytes| <= o ==> Bytes(v', i, o, n) == Bytes(v, i, o, n)
  {
  }

  lemma NothingWritten(v: Volume, ino: nat, off: nat)
    ensures Written(v, v, ino, off, [])
  {
  }

  /** Two writes end to end are one write of the concatenation. */
  lemma WrittenTrans(v: Volume, v1: Volume, v2: Volume, ino: nat, off: nat, a: seq<Byte>, b: seq<Byte>)
    requires Written(v, v1, ino, off, a) && Written(v1, v2, ino, off + |a|, b)
    ensures Written(v, v2, ino, off, a + b)
  {
  }

  lemma AllocationWrites(v: Volume, v': Volume, s: Slot, ino: nat, off: nat, meta: nat)
    requires Ok(v, meta) && Ok(v', meta) && Extends(v, v', s)
    ensures Written(v, v', ino, off, [])
  {
    forall i: nat ensures SameBytes(v, v', i) { ExtendsSameBytes(v, v', s, i, meta); }
  }

  lemma PatchWrites(v: Volume, v': Volume, ino: nat, bn: nat, o: nat, src: seq<Byte>, meta: nat)
    requires Ok(v, meta) && ino in v.t.addrs && bn < MAXFILE && o + |src| <= BSIZE
    requires var b := Ptr(v.t, Slot(ino, BlockPath(bn)));
             0 < b < |v.data| && v' == v.(data := v.data[b := Patch(v.data[b], o, src)])
    ensures Ok(v', meta) && Written(v, v', ino, bn * BSIZE + o, src)
  {
    forall i: nat, k: nat | k < MAXBYTES
      ensures ByteAt(v', i, k) ==
        if i == ino && bn * BSIZE + o <= k < bn * BSIZE + o + |src| then src[k - bn * BSIZE - o] else ByteAt(v, i, k)
    {
      PatchBytes(v, v', ino, bn, o, src, i, k, meta);
    }
  }

  /** An emptied tree shows zeros; the other inodes show what they showed. */
  lemma TruncatedBytes(v: Volume, v': Volume, ino: nat, i: nat, k: nat)
    requires k < MAXBYTES && v'.data == v.data && v'.t.addrs.Keys == v.t.addrs.Keys
    requires forall u :: ValidSlot(v.t, u) ==> Ptr(v'.t, u) == if u.ino == ino then 0 else Ptr(v.t, u)
    ensures ByteAt(v', i, k) == if i == ino then 0 else ByteAt(v, i, k)
  {
    if i in v.t.addrs { assert ValidSlot(v.t, Slot(i, BlockPath(k / BSIZE))); }
  }
}
