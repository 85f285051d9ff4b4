/** The block tree of an inode (fs.c, fs.h): ten direct blocks and one single, one double and
one triple indirect block.  Every pointer of every tree is a `Slot`; a file system state is
well formed when the slots own the used data blocks one to one. */
module FsTree {

  const BSIZE: nat := 512
  const NDIRECT: nat := 10
  const NADDRS: nat := NDIRECT + 3
  const NINDIRECT: nat := 128
  const NDBLINDIRECT: nat := NINDIRECT * NINDIRECT
  const NTPLINDIRECT: nat := NINDIRECT * NINDIRECT * NINDIRECT
  const MAXFILE: nat := NDIRECT + NINDIRECT + NDBLINDIRECT + NTPLINDIRECT

  /** An indirect block: 128 block numbers, 0 for none. */
  type PtrBlock = p: seq<nat> | |p| == NINDIRECT witness seq(NINDIRECT, i => 0)

  /** ip->addrs. */
  type Addrs = p: seq<nat> | |p| == NADDRS witness seq(NADDRS, i => 0)

  function ZeroPtrs(): (z: PtrBlock)
    ensures forall i :: 0 <= i < NINDIRECT ==> z[i] == 0
  {
    seq(NINDIRECT, i => 0)
  }

  /** The pointers on disk: the addrs of each inode, and each block read as an indirect block. */
  datatype Tree = Tree(addrs: map<nat, Addrs>, ind: seq<PtrBlock>)

  /** The pointer reached from inode ino by addrs[path[0]] and then one index per level. */
  datatype Slot = Slot(ino: nat, path: seq<nat>)

  /** Levels of indirection behind addrs[i]. */
  function Height(i: nat): nat {
    if i < NDIRECT then 0 else i - NDIRECT + 1
  }

  predicate ValidPath(p: seq<nat>) {
    && p != [] && p[0] < NADDRS && |p| <= 1 + Height(p[0])
    && forall i :: 1 <= i < |p| ==> p[i] < NINDIRECT
  }

  predicate ValidSlot(t: Tree, s: Slot) {
    s.ino in t.addrs && ValidPath(s.path)
  }

  function Parent(s: Slot): Slot
    requires s.path != []
  {
    Slot(s.ino, s.path[..|s.path| - 1])
  }

  function Last(s: Slot): nat
    requires s.path != []
  {
    s.path[|s.path| - 1]
  }

  function Entry(ind: seq<PtrBlock>, b: nat, j: nat): nat {
    if b < |ind| && j < NINDIRECT then ind[b][j] else 0
  }

  /** The block number stored in a slot; 0 if the slot, or an indirect block above it, is empty. */
  function Ptr(t: Tree, s: Slot): nat
    decreases |s.path|
  {
    if s.path == [] || s.ino !in t.addrs then 0
    else if |s.path| == 1 then (if Last(s) < NADDRS then t.addrs[s.ino][Last(s)] else 0)
    else
      var b := Ptr(t, Parent(s));
      if b == 0 then 0 else Entry(t.ind, b, Last(s))
  }

  /** No two slots hold the same block. */
  ghost predicate Distinct(t: Tree) {
    forall s, u {:trigger Ptr(t, s), Ptr(t, u)} ::
      ValidSlot(t, s) && ValidSlot(t, u) && Ptr(t, s) != 0 && Ptr(t, s) == Ptr(t, u) ==> s == u
  }

  /** Slots hold data blocks that the bitmap marks used. */
  ghost predicate Marked(t: Tree, used: seq<bool>, meta: nat) {
    && |t.ind| == |used|
    && forall s :: ValidSlot(t, s) && Ptr(t, s) != 0 ==>
         meta <= Ptr(t, s) < |used| && used[Ptr(t, s)]
  }

  /** The boot, super, log, inode and bitmap blocks are never free, and block 0 is one of them. */
  predicate MetaUsed(used: seq<bool>, meta: nat) {
    0 < meta <= |used| && forall b :: 0 <= b < meta ==> used[b]
  }

  /** Some slot holds block b. */
  ghost predicate Owned(t: Tree, b: nat) {
    exists s :: ValidSlot(t, s) && Ptr(t, s) == b
  }

  /** No used data block is lost. */
  ghost predicate NoLeak(t: Tree, used: seq<bool>, meta: nat) {
    forall b :: meta <= b < |used| && used[b] ==> Owned(t, b)
  }

  /** Conservation: a block is metadata, free, or in exactly one slot. */
  ghost predicate Conserved(t: Tree, used: seq<bool>, meta: nat) {
    MetaUsed(used, meta) && Marked(t, used, meta) && Distinct(t) && NoLeak(t, used, meta)
  }

  // ----- filling one slot -----

  /** The tree after an empty slot s receives the zeroed block x. */
  function Fill(t: Tree, s: Slot, x: nat): Tree
    requires s.path != [] && s.ino in t.addrs && x < |t.ind|
    requires |s.path| == 1 ==> s.path[0] < NADDRS
    requires |s.path| > 1 ==> Ptr(t, Parent(s)) < |t.ind| && Last(s) < NINDIRECT
  {
    var ind := t.ind[x := ZeroPtrs()];
    if |s.path| == 1 then
      Tree(t.addrs[s.ino := t.addrs[s.ino][Last(s) := x]], ind)
    else
      var b := Ptr(t, Parent(s));
      Tree(t.addrs, ind[b := ind[b][Last(s) := x]])
  }

  /** s can be filled with x: s is empty, what is above it is not, and x is in no slot. */
  ghost predicate CanFill(t: Tree, s: Slot, x: nat) {
    && Distinct(t) && ValidSlot(t, s) && Ptr(t, s) == 0
    && 0 < x < |t.ind| && (forall u :: ValidSlot(t, u) ==> Ptr(t, u) != x)
    && (|s.path| > 1 ==> 0 < Ptr(t, Parent(s)) < |t.ind|)
  }

  lemma ParentValid(t: Tree, s: Slot)
    requires ValidSlot(t, s) && |s.path| > 1
    ensures ValidSlot(t, Parent(s))
  {
  }

  /** Filling a slot changes that slot and no other. */
  lemma {:induction false} FillPtr(t: Tree, s: Slot, x: nat, u: Slot)
    requires CanFill(t, s, x) && ValidSlot(t, u)
    ensures Ptr(Fill(t, s, x), u) == if u == s then x else Ptr(t, u)
    decreases |u.path|
  {
    if |u.path| > 1 {
      ParentValid(t, u);
      FillPtr(t, s, x, Parent(u));
      FillEntry(t, s, x, u);
    } else {
      assert u.path == [Last(u)];
      if |s.path| == 1 { assert s.path == [Last(s)]; }
    }
  }

  /** The step of FillPtr below the top level. */
  lemma FillEntry(t: Tree, s: Slot, x: nat, u: Slot)
    requires CanFill(t, s, x) && ValidSlot(t, u) && |u.path| > 1
    requires Ptr(Fill(t, s, x), Parent(u)) == if Parent(u) == s then x else Ptr(t, Parent(u))
    ensures Ptr(Fill(t, s, x), u) == if u == s then x else Ptr(t, u)
  {
    var b := Ptr(t, Parent(u));
    ParentValid(t, u);
    if Parent(u) == s {
      assert b == 0;
    } else if |s.path| > 1 && b == Ptr(t, Parent(s)) {
      ParentValid(t, s);
      assert Parent(u) == Parent(s);
      assert u.path == Parent(u).path + [Last(u)] && s.path == Parent(s).path + [Last(s)];
    } else if b != 0 {
      assert u == s ==> |s.path| > 1;
      assert b != x;
    }
  }

  lemma FillConserves(t: Tree, used: seq<bool>, meta: nat, s: Slot, x: nat)
    requires Conserved(t, used, meta) && CanFill(t, s, x) && !used[x]
    ensures Conserved(Fill(t, s, x), used[x := true], meta)
    ensures forall u :: ValidSlot(t, u) ==> Ptr(Fill(t, s, x), u) == if u == s then x else Ptr(t, u)
  {
    var t', used' := Fill(t, s, x), used[x := true];
    forall u | ValidSlot(t, u) ensures Ptr(t', u) == if u == s then x else Ptr(t, u) {
      FillPtr(t, s, x, u);
    }
    assert forall u :: ValidSlot(t', u) <==> ValidSlot(t, u);
    forall b | meta <= b < |used'| && used'[b] ensures Owned(t', b) {
      if b == x { assert ValidSlot(t', s) && Ptr(t', s) == b; }
      else {
        assert used[b];
        var u :| ValidSlot(t, u) && Ptr(t, u) == b;
        assert ValidSlot(t', u) && Ptr(t', u) == b;
      }
    }
  }

  // ----- file blocks -----

  /** The slot path of file block bn: what bmap's index arithmetic means. */
  function BlockPath(bn: nat): (p: seq<nat>)
    requires bn < MAXFILE
    ensures ValidPath(p) && |p| == 1 + Height(p[0])
  {
    if bn < NDIRECT then [bn]
    else
      var r := bn - NDIRECT;
      if r < NINDIRECT then [NDIRECT, r]
      else
        var d := r - NINDIRECT;
        if d < NDBLINDIRECT then [NDIRECT + 1, d / NINDIRECT, d % NINDIRECT]
        else
          var q := d - NDBLINDIRECT;
          [NDIRECT + 2, q / NDBLINDIRECT, q / NINDIRECT % NINDIRECT, q % NINDIRECT]
  }

  /** The file block of a bottom-level slot path. */
  function PathBlock(p: seq<nat>): nat
    requires ValidPath(p) && |p| == 1 + Height(p[0])
  {
    if p[0] < NDIRECT then p[0]
    else if p[0] == NDIRECT then NDIRECT + p[1]
    else if p[0] == NDIRECT + 1 then NDIRECT + NINDIRECT + (p[1] * NINDIRECT + p[2])
    else NDIRECT + NINDIRECT + NDBLINDIRECT + ((p[1] * NINDIRECT + p[2]) * NINDIRECT + p[3])
  }

  /** Dividing by NINDIRECT twice. */
  lemma TripleIndex(q: nat)
    ensures q / NDBLINDIRECT == q / NINDIRECT / NINDIRECT
    ensures q == (q / NDBLINDIRECT * NINDIRECT + q / NINDIRECT % NINDIRECT) * NINDIRECT + q % NINDIRECT
  {
    var r := q / NINDIRECT;
    assert q == r * NINDIRECT + q % NINDIRECT && r == r / NINDIRECT * NINDIRECT + r % NINDIRECT;
  }

  lemma IndexPair(x: nat, y: nat)
    requires y < NINDIRECT
    ensures (x * NINDIRECT + y) / NINDIRECT == x && (x * NINDIRECT + y) % NINDIRECT == y
  {
  }

  /** The path of a file block leads back to it. */
  lemma PathBlockOf(bn: nat)
    requires bn < MAXFILE
    ensures PathBlock(BlockPath(bn)) == bn
  {
    if bn >= NDIRECT + NINDIRECT + NDBLINDIRECT { TripleIndex(bn - NDIRECT - NINDIRECT - NDBLINDIRECT); }
  }

  /** Different file blocks have different slots. */
  lemma BlockPathInjective(a: nat, b: nat)
    requires a < MAXFILE && b < MAXFILE && BlockPath(a) == BlockPath(b)
    ensures a == b
  {
    hide BlockPath, PathBlock;
    PathBlockOf(a);
    PathBlockOf(b);
  }

  /** Every bottom-level slot is the slot of a file block. */
  lemma BlockPathSurjective(p: seq<nat>)
    requires ValidPath(p) && |p| == 1 + Height(p[0])
    ensures PathBlock(p) < MAXFILE && BlockPath(PathBlock(p)) == p
  {
    if p[0] == NDIRECT + 1 { IndexPair(p[1], p[2]); }
    if p[0] == NDIRECT + 2 {
      var r := p[1] * NINDIRECT + p[2];
      IndexPair(p[1], p[2]);
      IndexPair(r, p[3]);
      TripleIndex(r * NINDIRECT + p[3]);
    }
  }

  /** First file block that bmap cannot reach safely. */
  const SAFEFILE: nat := NDIRECT + NINDIRECT + 2 * NDBLINDIRECT

  /** The second-level index that bmap reads in the triple indirect tree is the one it writes,
      and lies inside the indirect block, exactly for the first NDBLINDIRECT triple blocks. */
  lemma TripleIndexAgrees(q: nat)
    requires q < NTPLINDIRECT
    ensures q / NINDIRECT == q % NDBLINDIRECT / NINDIRECT <==> q < NDBLINDIRECT
    ensures q / NINDIRECT < NINDIRECT <==> q < NDBLINDIRECT
    ensures q % NDBLINDIRECT / NINDIRECT == q / NINDIRECT % NINDIRECT
  {
    var a, b := q / NDBLINDIRECT, q % NDBLINDIRECT;
    assert q == NINDIRECT * (NINDIRECT * a) + b;
    assert q / NINDIRECT == NINDIRECT * a + b / NINDIRECT;
  }
}
