/** bio.c: NBUF buffers on a ring of prev/next links, most recently released first, holding
copies of disk blocks.  `pos` numbers the buffers along the ring; `stamp` records when each
was last released by its last user.  To the log the cache is a BlockStore.Store. */
module BufferCache {
  import opened Types
  import opened BlockStore

  /** Index of bcache.head in the link arrays. */
  const HEAD: nat := NBUF

  const ROOTDEV: nat := 1

  datatype Buf = Buf(dev: nat, blockno: nat, valid: bool, dirty: bool, refcnt: nat, data: Block)

  /** What bread comes to. */
  datatype ReadResult = Got(b: nat) | NoBuffers | BadRequest

  // ----- the ring -----

  /** next and prev of the NBUF buffers and of the head. */
  datatype Links = Links(next: seq<nat>, prev: seq<nat>)

  /** The links of b lead to the buffers one place further and one place nearer. */
  ghost predicate NodeOk(l: Links, pos: seq<int>, n: nat, b: int) {
    && |l.next| == |l.prev| == NBUF + 1 && |pos| == NBUF && n <= NBUF && InRing(b, n)
    && InRing(l.next[b], n) && Place(pos, n, l.next[b]) == After(pos, n, b)
    && InRing(l.prev[b], n) && Place(pos, n, l.prev[b]) == Before(pos, n, b)
  }

  /** The links form one ring through the head and the first n buffers, in the order of pos. */
  ghost predicate Ring(l: Links, pos: seq<int>, n: nat) {
    && |l.next| == |l.prev| == NBUF + 1 && |pos| == NBUF && n <= NBUF
    && (forall b :: 0 <= b < n ==> 0 <= pos[b] < n)
    && (forall a, b :: 0 <= a < b < n ==> pos[a] != pos[b])
    && (forall b {:trigger NodeOk(l, pos, n, b)} :: InRing(b, n) ==> NodeOk(l, pos, n, b))
  }

  predicate InRing(b: int, n: nat) { 0 <= b < n || b == HEAD }

  /** Position along the ring, the head counting as position n. */
  function Place(pos: seq<int>, n: nat, b: int): int
    requires |pos| == NBUF && n <= NBUF && InRing(b, n)
  {
    if b == HEAD then n else pos[b]
  }

  function After(pos: seq<int>, n: nat, b: int): int
    requires |pos| == NBUF && n <= NBUF && InRing(b, n)
  {
    if b == HEAD then 0 else pos[b] + 1
  }

  function Before(pos: seq<int>, n: nat, b: int): int
    requires |pos| == NBUF && n <= NBUF && InRing(b, n)
  {
    if b == HEAD then (if n == 0 then n else n - 1) else if pos[b] == 0 then n else pos[b] - 1
  }

  /** Buffer b moved to the front, those before it one place back. */
  function ToFront(pos: seq<int>, b: nat): (r: seq<int>)
    requires |pos| == NBUF && b < NBUF
    ensures |r| == NBUF
    ensures forall a :: 0 <= a < NBUF ==> r[a] == if a == b then 0 else if pos[a] < pos[b] then pos[a] + 1 else pos[a]
  {
    seq(NBUF, a requires 0 <= a < NBUF => if a == b then 0 else if pos[a] < pos[b] then pos[a] + 1 else pos[a])
  }

  /** Taking b out of the ring, as brelse does. */
  function Unlink(l: Links, b: nat): (r: Links)
    requires |l.next| == |l.prev| == NBUF + 1 && b <= NBUF && l.next[b] <= NBUF && l.prev[b] <= NBUF
    ensures |r.next| == |r.prev| == NBUF + 1
  {
    var prev1 := l.prev[l.next[b] := l.prev[b]];
    Links(l.next[prev1[b] := l.next[b]], prev1)
  }

  /** Putting b in front, as binit and brelse do. */
  function LinkFirst(l: Links, b: nat): (r: Links)
    requires |l.next| == |l.prev| == NBUF + 1 && b <= NBUF && l.next[HEAD] <= NBUF
    ensures |r.next| == |r.prev| == NBUF + 1
  {
    var first := l.next[HEAD];
    Links(l.next[b := first][HEAD := b], l.prev[b := HEAD][first := b])
  }

  /** Buffers at the same place are the same. */
  lemma SamePlace(l: Links, pos: seq<int>, n: nat, a: int, b: int)
    requires Ring(l, pos, n) && InRing(a, n) && InRing(b, n) && Place(pos, n, a) == Place(pos, n, b)
    ensures a == b
  {
  }

  /** The links brelse follows stay inside the arrays. */
  lemma LinksInside(l: Links, pos: seq<int>, b: nat)
    requires Ring(l, pos, NBUF) && b < NBUF
    ensures NodeOk(l, pos, NBUF, b) && NodeOk(l, pos, NBUF, HEAD)
    ensures Unlink(l, b).next[HEAD] <= NBUF
  {
    assert NodeOk(l, pos, NBUF, b) && NodeOk(l, pos, NBUF, HEAD);
  }

  /** brelse's pointer surgery. */
  function MovedLinks(l: Links, b: nat): (r: Links)
    requires |l.next| == |l.prev| == NBUF + 1 && b < NBUF && l.next[b] <= NBUF && l.prev[b] <= NBUF
    requires Unlink(l, b).next[HEAD] <= NBUF
    ensures |r.next| == |r.prev| == NBUF + 1
  {
    LinkFirst(Unlink(l, b), b)
  }

  /** brelse's pointer surgery moves b to the front of the ring and keeps all others in order. */
  lemma MoveToFront(l: Links, pos: seq<int>, b: nat)
    requires Ring(l, pos, NBUF) && b < NBUF
    requires NodeOk(l, pos, NBUF, b) && NodeOk(l, pos, NBUF, HEAD) && Unlink(l, b).next[HEAD] <= NBUF
    ensures Ring(MovedLinks(l, b), ToFront(pos, b), NBUF)
  {
    hide NodeOk, ToFront, Unlink, LinkFirst, MovedLinks;
    ToFrontDistinct(pos, b);
    AllMove(l, pos, b);
  }

  lemma AllMove(l: Links, pos: seq<int>, b: nat)
    requires Ring(l, pos, NBUF) && b < NBUF
    requires NodeOk(l, pos, NBUF, b) && NodeOk(l, pos, NBUF, HEAD) && Unlink(l, b).next[HEAD] <= NBUF
    ensures forall a {:trigger NodeOk(MovedLinks(l, b), ToFront(pos, b), NBUF, a)} ::
              InRing(a, NBUF) ==> NodeOk(MovedLinks(l, b), ToFront(pos, b), NBUF, a)
  {
    forall a | InRing(a, NBUF) ensures NodeOk(MovedLinks(l, b), ToFront(pos, b), NBUF, a) {
      MoveNode(l, pos, b, a);
    }
  }

  lemma ToFrontDistinct(pos: seq<int>, b: nat)
    requires |pos| == NBUF && b < NBUF && (forall a :: 0 <= a < NBUF ==> 0 <= pos[a] < NBUF)
    requires forall a, c :: 0 <= a < c < NBUF ==> pos[a] != pos[c]
    ensures forall a :: 0 <= a < NBUF ==> 0 <= ToFront(pos, b)[a] < NBUF
    ensures forall a, c :: 0 <= a < c < NBUF ==> ToFront(pos, b)[a] != ToFront(pos, b)[c]
  {
    var r := ToFront(pos, b);
    hide ToFront;
    assert forall a :: 0 <= a < NBUF ==> r[a] == if a == b then 0 else if pos[a] < pos[b] then pos[a] + 1 else pos[a];
  }

  lemma MoveNode(l: Links, pos: seq<int>, b: nat, a: int)
    requires Ring(l, pos, NBUF) && b < NBUF && InRing(a, NBUF)
    requires NodeOk(l, pos, NBUF, b) && NodeOk(l, pos, NBUF, HEAD)
    requires Unlink(l, b).next[HEAD] <= NBUF
    ensures NodeOk(MovedLinks(l, b), ToFront(pos, b), NBUF, a)
  {
    assert NodeOk(l, pos, NBUF, a);
    var first, x, y := l.next[HEAD], l.next[b], l.prev[b];
    if pos[b] == 0 {
      SamePlace(l, pos, NBUF, first, b);
    } else {
      assert first != b;
    }
  }

  /** The order binit builds: the buffer linked last comes first. */
  function InitPos(n: nat): (r: seq<int>)
    ensures |r| == NBUF && forall b :: 0 <= b < NBUF ==> r[b] == n - 1 - b
  {
    seq(NBUF, b => n - 1 - b)
  }

  lemma LinkNode(l: Links, n: nat, a: int)
    requires n < NBUF && Ring(l, InitPos(n), n) && InRing(a, n + 1) && NodeOk(l, InitPos(n), n, HEAD)
    ensures NodeOk(LinkFirst(l, n), InitPos(n + 1), n + 1, a)
  {
    if a != n { assert NodeOk(l, InitPos(n), n, a); }
  }

  /** One round of binit's loop. */
  lemma LinkFirstRing(l: Links, n: nat)
    requires n < NBUF && Ring(l, InitPos(n), n) && NodeOk(l, InitPos(n), n, HEAD)
    ensures Ring(LinkFirst(l, n), InitPos(n + 1), n + 1)
  {
    var m := n + 1;
    forall a | InRing(a, m) ensures NodeOk(LinkFirst(l, n), InitPos(m), m, a) {
      LinkNode(l, n, a);
    }
    hide NodeOk, LinkFirst;
  }

  // ----- the cached blocks -----

  predicate Holds(b: Buf, dev: nat, blockno: nat) { b.dev == dev && b.blockno == blockno }

  /** Free to be recycled: nobody uses it and the log does not need it. */
  predicate Recyclable(b: Buf) { b.refcnt == 0 && !b.dirty }

  /** At most one buffer holds a given block of a real device. */
  ghost predicate Unique(bufs: seq<Buf>) {
    forall i, j :: 0 <= i < j < |bufs| && bufs[i].dev != 0 ==> !Holds(bufs[j], bufs[i].dev, bufs[i].blockno)
  }

  /** Valid clean buffers agree with the disk; dirty ones are valid. */
  ghost predicate Coherent(bufs: seq<Buf>, disk: Disk) {
    && Unique(bufs)
    && (forall i :: 0 <= i < |bufs| && bufs[i].valid ==> bufs[i].dev == ROOTDEV && bufs[i].blockno < |disk|)
    && (forall i :: 0 <= i < |bufs| && bufs[i].dirty ==> bufs[i].valid)
    && (forall i :: 0 <= i < |bufs| && bufs[i].valid && !bufs[i].dirty ==> bufs[i].data == disk[bufs[i].blockno])
  }

  /** store is what the buffers and the disk amount to: the dirty buffers pin their blocks. */
  ghost predicate Represents(bufs: seq<Buf>, disk: Disk, store: Store) {
    && store.disk == disk
    && (forall i :: 0 <= i < |bufs| && bufs[i].dirty ==>
          bufs[i].blockno in store.pinned && store.pinned[bufs[i].blockno] == bufs[i].data)
    && (forall b :: b in store.pinned ==> exists i :: 0 <= i < |bufs| && bufs[i].dirty && bufs[i].blockno == b)
  }

  /** The clean buffer of a block shows that nothing is pinned for it. */
  lemma ValidReads(bufs: seq<Buf>, disk: Disk, store: Store, i: nat)
    requires Coherent(bufs, disk) && Represents(bufs, disk, store) && i < |bufs| && bufs[i].valid
    ensures bufs[i].data == store.Read(bufs[i].blockno)
  {
    if !bufs[i].dirty && bufs[i].blockno in store.pinned {
      var j :| 0 <= j < |bufs| && bufs[j].dirty && bufs[j].blockno == bufs[i].blockno;
      assert Holds(bufs[j], bufs[i].dev, bufs[i].blockno) && Holds(bufs[i], bufs[j].dev, bufs[j].blockno);
    }
  }

  // ----- the cache at work -----

  /** b is the buffer to recycle: recyclable, and released before every other such buffer. */
  ghost predicate Oldest(bufs: seq<Buf>, stamp: seq<int>, b: nat) {
    && |bufs| == |stamp| && b < |bufs| && Recyclable(bufs[b])
    && forall i :: 0 <= i < |bufs| && Recyclable(bufs[i]) ==> stamp[b] <= stamp[i]
  }

  class Bcache {
    var links: Links
    var bufs: seq<Buf>
    var disk: Disk
    ghost var pos: seq<int>
    ghost var stamp: seq<int>
    ghost var clock: int
    ghost var store: Store

    /** The ring is a permutation of all buffers, the more recently released the nearer to the
        head, and the buffers represent store. */
    ghost predicate Valid()
      reads this
    {
      && Ring(links, pos, NBUF) && |bufs| == |stamp| == NBUF
      && ByStamp(pos, stamp, clock)
      && Coherent(bufs, disk) && Represents(bufs, disk, store)
    }

    /** binit. */
    constructor (disk: Disk)
      ensures Valid() && store == Store(disk, map[]) && forall i :: 0 <= i < NBUF ==> bufs[i].refcnt == 0
    {
      var l := Links(seq(NBUF + 1, i => HEAD), seq(NBUF + 1, i => HEAD));
      var n := 0;
      assert NodeOk(l, InitPos(0), 0, HEAD);
      while n < NBUF
        invariant 0 <= n <= NBUF && Ring(l, InitPos(n), n)
      {
        assert NodeOk(l, InitPos(n), n, HEAD);
        LinkFirstRing(l, n);
        l := LinkFirst(l, n);
        n := n + 1;
      }
      links, pos := l, InitPos(NBUF);
      bufs := seq(NBUF, i => Buf(0, 0, false, false, 0, seq(WORDS, k => 0)));
      this.disk := disk;
      stamp, clock := seq(NBUF, i => i), NBUF;
      store := Store(disk, map[]);
    }

    /** bget's first scan, from the head forward; HEAD if the block is not cached. */
    method Lookup(dev: nat, blockno: nat) returns (b: nat)
      requires Valid()
      ensures b <= NBUF && (b < NBUF ==> Holds(bufs[b], dev, blockno))
      ensures b == HEAD ==> forall i :: 0 <= i < NBUF ==> !Holds(bufs[i], dev, blockno)
    {
      hide Coherent, Represents, ByStamp;
      b := links.next[HEAD];
      assert NodeOk(links, pos, NBUF, HEAD);
      while b != HEAD
        invariant InRing(b, NBUF)
        invariant forall i :: 0 <= i < NBUF && pos[i] < Place(pos, NBUF, b) ==> !Holds(bufs[i], dev, blockno)
        decreases NBUF - Place(pos, NBUF, b)
      {
        if Holds(bufs[b], dev, blockno) { return; }
        assert NodeOk(links, pos, NBUF, b);
        PlacesBelow(links, pos, b);
        b := links.next[b];
      }
    }

    /** bget's second scan, from the tail backward: the oldest recyclable buffer, or HEAD. */
    method Victim() returns (b: nat)
      requires Valid()
      ensures b <= NBUF && (b < NBUF ==> Oldest(bufs, stamp, b))
      ensures b == HEAD ==> forall i :: 0 <= i < NBUF ==> !Recyclable(bufs[i])
    {
      hide Coherent, Represents;
      b := links.prev[HEAD];
      assert NodeOk(links, pos, NBUF, HEAD);
      while b != HEAD
        invariant InRing(b, NBUF)
        invariant forall i :: 0 <= i < NBUF && (b == HEAD || pos[i] > pos[b]) ==> !Recyclable(bufs[i])
        decreases if b == HEAD then 0 else pos[b] + 1
      {
        PlacesBelow(links, pos, b);
        if Recyclable(bufs[b]) { return; }
        assert NodeOk(links, pos, NBUF, b);
        b := links.prev[b];
      }
    }

    /** bget: the buffer of the block, or the oldest recyclable one given to it; None is the panic. */
    method Bget(dev: nat, blockno: nat) returns (r: Option<nat>)
      requires Valid()
      modifies this`bufs
      ensures Valid()
      ensures r.Some? ==> r.value < NBUF && Gotten(old(bufs), stamp, bufs, dev, blockno, r.value)
      ensures r.None? ==> bufs == old(bufs) && forall i :: 0 <= i < NBUF ==> !Holds(bufs[i], dev, blockno) && !Recyclable(bufs[i])
    {
      hide Ring, ByStamp;
      var b := Lookup(dev, blockno);
      hide Coherent, Represents;
      if b != HEAD {
        RefcntOk(bufs, disk, store, b, bufs[b].refcnt + 1);
        bufs := bufs[b := bufs[b].(refcnt := bufs[b].refcnt + 1)];
        return Some(b);
      }
      b := Victim();
      if b != HEAD {
        RecycleOk(bufs, disk, store, b, dev, blockno);
        bufs := bufs[b := Buf(dev, blockno, false, false, 1, bufs[b].data)];
        return Some(b);
      }
      return None;
    }

    /** bread: a buffer with the block as the store has it.  BadRequest is iderw's panic for another
        device or a block behind the end of the disk. */
    method Bread(dev: nat, blockno: nat) returns (r: ReadResult)
      requires Valid()
      modifies this`bufs
      ensures Valid()
      ensures r.Got? ==>
        && dev == ROOTDEV && blockno < |disk| == |store.disk|
        && r.b < NBUF && Holds(bufs[r.b], dev, blockno) && bufs[r.b].refcnt > 0
        && bufs[r.b].valid && bufs[r.b].data == store.Read(blockno)
      ensures r.Got? ==> Fetched(old(bufs), stamp, bufs, dev, blockno, r.b)
      ensures r.NoBuffers? <==> forall i :: 0 <= i < NBUF ==> !Holds(old(bufs)[i], dev, blockno) && !Recyclable(old(bufs)[i])
      ensures r.NoBuffers? ==> bufs == old(bufs)
      ensures r.BadRequest? ==> dev != ROOTDEV || blockno >= |disk|
    {
      hide Ring, ByStamp;
      var g := Bget(dev, blockno);
      if g.None? { return NoBuffers; }
      var b := g.value;
      if !bufs[b].valid {
        if dev != ROOTDEV || blockno >= |disk| { return BadRequest; }
        FillOk(bufs, disk, store, b);
        bufs := bufs[b := bufs[b].(data := disk[blockno], valid := true)];
      }
      ValidReads(bufs, disk, store, b);
      return Got(b);
    }

    /** bwrite of a buffer in use whose contents are now `data`: through iderw to the disk; false is
        iderw's panic for another device or a block behind the end of the disk. */
    method Bwrite(b: nat, data: Block) returns (ok: bool)
      requires Valid() && b < NBUF && bufs[b].refcnt > 0
      modifies this`bufs, this`disk, this`store
      ensures ok <==> old(bufs)[b].dev == ROOTDEV && old(bufs)[b].blockno < |old(disk)|
      ensures !ok ==> disk == old(disk) && store == old(store)
      ensures ok ==> Valid() && old(bufs)[b].blockno < |old(store).disk| && store == old(store).Write(old(bufs)[b].blockno, data)
      ensures ok ==> bufs == old(bufs)[b := old(bufs)[b].(data := data, valid := true, dirty := false)]
    {
      hide Ring, ByStamp;
      var n := bufs[b].blockno;
      if bufs[b].dev != ROOTDEV || n >= |disk| {
        bufs := bufs[b := bufs[b].(data := data, dirty := true)];
        return false;
      }
      WriteOk(bufs, disk, store, b, data);
      hide Coherent, Represents;
      store := store.Write(n, data);
      bufs := bufs[b := bufs[b].(data := data, dirty := true)];
      bufs := bufs[b := bufs[b].(dirty := false, valid := true)];
      assert bufs == old(bufs)[b := old(bufs)[b].(data := data, dirty := false, valid := true)];
      disk := disk[n := data];
      return true;
    }

    /** log_write's part in the cache: the buffer, read by bread and now holding `data`, is pinned. */
    method Pin(b: nat, data: Block)
      requires Valid() && b < NBUF && bufs[b].refcnt > 0 && bufs[b].valid
      modifies this`bufs, this`store
      ensures Valid() && old(bufs)[b].blockno < |old(store).disk| && store == old(store).Pin(old(bufs)[b].blockno, data)
      ensures bufs == old(bufs)[b := old(bufs)[b].(data := data, dirty := true)]
    {
      hide Ring, ByStamp;
      PinOk(bufs, disk, store, b, data);
      assert bufs[b].blockno < |disk| == |store.disk|;
      hide Coherent, Represents;
      store := store.Pin(bufs[b].blockno, data);
      bufs := bufs[b := bufs[b].(data := data, dirty := true)];
    }

    /** brelse's assignments to the links. */
    method Relink(b: nat)
      requires |links.next| == |links.prev| == NBUF + 1 && b < NBUF
      requires links.next[b] <= NBUF && links.prev[b] <= NBUF && Unlink(links, b).next[HEAD] <= NBUF
      modifies this`links
      ensures links == MovedLinks(old(links), b)
    {
      links := links.(prev := links.prev[links.next[b] := links.prev[b]]);
      links := links.(next := links.next[links.prev[b] := links.next[b]]);
      links := links.(next := links.next[b := links.next[HEAD]]);
      links := links.(prev := links.prev[b := HEAD]);
      links := links.(prev := links.prev[links.next[HEAD] := b]);
      links := links.(next := links.next[HEAD := b]);
    }

    /** brelse: when the last user is gone the buffer goes to the front of the ring. */
    method Brelse(b: nat)
      requires Valid() && b < NBUF && bufs[b].refcnt > 0
      modifies this`bufs, this`links, this`pos, this`stamp, this`clock
      ensures Valid() && bufs == old(bufs)[b := old(bufs)[b].(refcnt := old(bufs)[b].refcnt - 1)]
      ensures bufs[b].refcnt > 0 ==> pos == old(pos) && stamp == old(stamp) && links == old(links)
      ensures bufs[b].refcnt == 0 ==> pos == ToFront(old(pos), b) && stamp == old(stamp)[b := old(clock)] && clock == old(clock) + 1
    {
      hide Coherent, Represents, ByStamp, ToFront, MovedLinks;
      RefcntOk(bufs, disk, store, b, bufs[b].refcnt - 1);
      bufs := bufs[b := bufs[b].(refcnt := bufs[b].refcnt - 1)];
      if bufs[b].refcnt == 0 {
        LinksInside(links, pos, b);
        MoveToFront(links, pos, b);
        FrontStamp(pos, stamp, clock, b);
        Relink(b);
        pos, stamp, clock := ToFront(pos, b), stamp[b := clock], clock + 1;
      }
    }
  }

  lemma RefcntOk(bufs: seq<Buf>, disk: Disk, store: Store, b: nat, n: nat)
    requires Coherent(bufs, disk) && Represents(bufs, disk, store) && b < |bufs|
    ensures var bufs' := bufs[b := bufs[b].(refcnt := n)]; Coherent(bufs', disk) && Represents(bufs', disk, store)
  {
    var bufs' := bufs[b := bufs[b].(refcnt := n)];
    StillPinned(bufs, bufs', disk, store);
  }

  /** The pinned blocks keep a dirty buffer when the dirty buffers keep their block. */
  lemma StillPinned(bufs: seq<Buf>, bufs': seq<Buf>, disk: Disk, store: Store)
    requires Represents(bufs, disk, store) && |bufs'| == |bufs|
    requires forall i :: 0 <= i < |bufs| && bufs[i].dirty ==> bufs'[i].dirty && bufs'[i].blockno == bufs[i].blockno
    ensures forall x :: x in store.pinned ==> exists i :: 0 <= i < |bufs'| && bufs'[i].dirty && bufs'[i].blockno == x
  {
    forall x | x in store.pinned ensures exists i :: 0 <= i < |bufs'| && bufs'[i].dirty && bufs'[i].blockno == x {
      var i :| 0 <= i < |bufs| && bufs[i].dirty && bufs[i].blockno == x;
      assert bufs'[i].dirty;
    }
  }

  lemma FillOk(bufs: seq<Buf>, disk: Disk, store: Store, b: nat)
    requires Coherent(bufs, disk) && Represents(bufs, disk, store) && b < |bufs| && !bufs[b].valid
    requires bufs[b].dev == ROOTDEV && bufs[b].blockno < |disk|
    ensures var bufs' := bufs[b := bufs[b].(data := disk[bufs[b].blockno], valid := true)];
      Coherent(bufs', disk) && Represents(bufs', disk, store)
  {
    StillPinned(bufs, bufs[b := bufs[b].(data := disk[bufs[b].blockno], valid := true)], disk, store);
  }

  lemma WriteOk(bufs: seq<Buf>, disk: Disk, store: Store, b: nat, data: Block)
    requires Coherent(bufs, disk) && Represents(bufs, disk, store) && b < |bufs|
    requires bufs[b].dev == ROOTDEV && bufs[b].blockno < |disk|
    ensures var bufs', disk' := bufs[b := bufs[b].(data := data, dirty := false, valid := true)], disk[bufs[b].blockno := data];
      && |store.disk| == |disk| && Coherent(bufs', disk')
      && Represents(bufs', disk', store.Write(bufs[b].blockno, data))
  {
    var n := bufs[b].blockno;
    var bufs', disk', store' := bufs[b := bufs[b].(data := data, dirty := false, valid := true)], disk[n := data], store.Write(n, data);
    forall i | 0 <= i < |bufs| && i != b && bufs[i].valid ensures bufs[i].blockno != n {
      assert !Holds(bufs[i], bufs[b].dev, n) && !Holds(bufs[b], bufs[i].dev, bufs[i].blockno);
    }
    forall x | x in store'.pinned ensures exists i :: 0 <= i < |bufs'| && bufs'[i].dirty && bufs'[i].blockno == x {
      var i :| 0 <= i < |bufs| && bufs[i].dirty && bufs[i].blockno == x;
      assert bufs'[i] == bufs[i];
    }
  }

  lemma PinOk(bufs: seq<Buf>, disk: Disk, store: Store, b: nat, data: Block)
    requires Coherent(bufs, disk) && Represents(bufs, disk, store) && b < |bufs| && bufs[b].valid
    ensures var bufs' := bufs[b := bufs[b].(data := data, dirty := true)];
      && bufs[b].blockno < |store.disk| && Coherent(bufs', disk)
      && Represents(bufs', disk, store.Pin(bufs[b].blockno, data))
  {
    var n := bufs[b].blockno;
    var bufs' := bufs[b := bufs[b].(data := data, dirty := true)];
    forall i | 0 <= i < |bufs| && i != b && bufs[i].valid ensures bufs[i].blockno != n {
      assert !Holds(bufs[i], bufs[b].dev, n) && !Holds(bufs[b], bufs[i].dev, bufs[i].blockno);
    }
    StillPinned(bufs, bufs', disk, store);
    assert bufs'[b].dirty;
  }

  lemma FrontStamp(pos: seq<int>, stamp: seq<int>, clock: int, b: nat)
    requires ByStamp(pos, stamp, clock) && b < NBUF && forall a :: 0 <= a < NBUF ==> 0 <= pos[a]
    ensures ByStamp(ToFront(pos, b), stamp[b := clock], clock + 1)
  {
    var r := ToFront(pos, b);
    hide ToFront;
    assert forall a :: 0 <= a < NBUF ==> r[a] == if a == b then 0 else if pos[a] < pos[b] then pos[a] + 1 else pos[a];
  }

  /** bget gave buffer b to the block: the one that holds it, or the oldest recyclable one. */
  ghost predicate Gotten(bufs: seq<Buf>, stamp: seq<int>, bufs': seq<Buf>, dev: nat, blockno: nat, b: nat) {
    && b < |bufs| == |stamp|
    && if exists i :: 0 <= i < |bufs| && Holds(bufs[i], dev, blockno) then
         Holds(bufs[b], dev, blockno) && bufs' == bufs[b := bufs[b].(refcnt := bufs[b].refcnt + 1)]
       else
         Oldest(bufs, stamp, b) && bufs' == bufs[b := Buf(dev, blockno, false, false, 1, bufs[b].data)]
  }

  /** bread took buffer b for the block, as bget does, and left all others, and their users, alone. */
  ghost predicate Fetched(bufs: seq<Buf>, stamp: seq<int>, bufs': seq<Buf>, dev: nat, blockno: nat, b: nat) {
    && b < |bufs| == |bufs'| && (forall i :: 0 <= i < |bufs| && i != b ==> bufs'[i] == bufs[i])
    && if exists i :: 0 <= i < |bufs| && Holds(bufs[i], dev, blockno) then
         Holds(bufs[b], dev, blockno) && bufs'[b].refcnt == bufs[b].refcnt + 1 && bufs'[b].dirty == bufs[b].dirty
       else
         Oldest(bufs, stamp, b) && bufs'[b].refcnt == 1 && !bufs'[b].dirty
  }

  /** Recycling a clean buffer for a block that no buffer holds. */
  lemma RecycleOk(bufs: seq<Buf>, disk: Disk, store: Store, b: nat, dev: nat, blockno: nat)
    requires Coherent(bufs, disk) && Represents(bufs, disk, store) && b < |bufs| && !bufs[b].dirty
    requires forall i :: 0 <= i < |bufs| ==> !Holds(bufs[i], dev, blockno)
    ensures var bufs' := bufs[b := Buf(dev, blockno, false, false, 1, bufs[b].data)];
      Coherent(bufs', disk) && Represents(bufs', disk, store)
  {
    var bufs' := bufs[b := Buf(dev, blockno, false, false, 1, bufs[b].data)];
    forall x | x in store.pinned ensures exists i :: 0 <= i < |bufs'| && bufs'[i].dirty && bufs'[i].blockno == x {
      var i :| 0 <= i < |bufs| && bufs[i].dirty && bufs[i].blockno == x;
      assert bufs'[i] == bufs[i];
    }
  }

  ghost function DirtyBlocks(bufs: seq<Buf>): set<nat> {
    set i | 0 <= i < |bufs| && bufs[i].dirty :: bufs[i].blockno
  }

  /** The clean buffers that someone uses. */
  function InUse(bufs: seq<Buf>): nat {
    if bufs == [] then 0
    else InUse(bufs[..|bufs| - 1]) + if bufs[|bufs| - 1].refcnt > 0 && !bufs[|bufs| - 1].dirty then 1 else 0
  }

  lemma {:induction false} DirtyCount(bufs: seq<Buf>)
    requires forall i, j :: 0 <= i < j < |bufs| && bufs[i].dirty && bufs[j].dirty ==> bufs[i].blockno != bufs[j].blockno
    ensures |DirtyBlocks(bufs)| + InUse(bufs) <= |bufs|
    ensures |DirtyBlocks(bufs)| + InUse(bufs) == |bufs| <==> forall i :: 0 <= i < |bufs| ==> !Recyclable(bufs[i])
  {
    if bufs != [] {
      var n := |bufs| - 1;
      var pre := bufs[..n];
      DirtyLast(bufs);
      hide DirtyBlocks;
      DirtyCount(pre);
      assert forall i :: 0 <= i < n ==> pre[i] == bufs[i];
    } else {
      assert DirtyBlocks(bufs) == {};
    }
  }

  lemma DirtyLast(bufs: seq<Buf>)
    requires bufs != []
    requires forall i, j :: 0 <= i < j < |bufs| && bufs[i].dirty && bufs[j].dirty ==> bufs[i].blockno != bufs[j].blockno
    ensures |DirtyBlocks(bufs)| == |DirtyBlocks(bufs[..|bufs| - 1])| + if bufs[|bufs| - 1].dirty then 1 else 0
  {
    var n := |bufs| - 1;
    var pre := bufs[..n];
    if bufs[n].dirty {
      assert DirtyBlocks(bufs) == DirtyBlocks(pre) + {bufs[n].blockno};
      assert bufs[n].blockno !in DirtyBlocks(pre);
    } else {
      assert DirtyBlocks(bufs) == DirtyBlocks(pre);
    }
  }

  /** bget can recycle a buffer exactly if the pinned blocks and the clean buffers in use are fewer than
      the buffers. */
  lemma SpareBuffer(bufs: seq<Buf>, disk: Disk, store: Store)
    requires Coherent(bufs, disk) && Represents(bufs, disk, store)
    ensures (exists i :: 0 <= i < |bufs| && Recyclable(bufs[i])) <==> |store.pinned| + InUse(bufs) < |bufs|
  {
    forall i, j | 0 <= i < j < |bufs| && bufs[i].dirty && bufs[j].dirty ensures bufs[i].blockno != bufs[j].blockno {
      assert !Holds(bufs[j], bufs[i].dev, bufs[i].blockno);
    }
    DirtyCount(bufs);
    assert DirtyBlocks(bufs) == store.pinned.Keys;
    assert |store.pinned| == |store.pinned.Keys|;
  }

  /** When as many blocks are pinned as there are buffers, every buffer is dirty. */
  lemma DirtyAll(bufs: seq<Buf>, disk: Disk, store: Store)
    requires Coherent(bufs, disk) && Represents(bufs, disk, store) && |store.pinned| == |bufs|
    ensures forall i :: 0 <= i < |bufs| ==> bufs[i].dirty
  {
    forall i, j | 0 <= i < j < |bufs| && bufs[i].dirty && bufs[j].dirty ensures bufs[i].blockno != bufs[j].blockno {
      assert !Holds(bufs[j], bufs[i].dev, bufs[i].blockno);
    }
    DirtyCount(bufs);
    assert DirtyBlocks(bufs) == store.pinned.Keys;
    assert |store.pinned| == |store.pinned.Keys|;
    NotInUse(bufs);
  }

  lemma {:induction false} NotInUse(bufs: seq<Buf>)
    ensures InUse(bufs) == 0 <==> forall i :: 0 <= i < |bufs| ==> bufs[i].refcnt == 0 || bufs[i].dirty
  {
    if bufs != [] {
      var n := |bufs| - 1;
      NotInUse(bufs[..n]);
      assert forall i :: 0 <= i < n ==> bufs[..n][i] == bufs[i];
    }
  }

  /** One step along the ring skips nobody. */
  lemma PlacesBelow(l: Links, pos: seq<int>, b: int)
    requires Ring(l, pos, NBUF) && 0 <= b < NBUF
    ensures forall i :: 0 <= i < NBUF && i != b ==> pos[i] < pos[b] || pos[i] > pos[b]
    ensures forall i :: 0 <= i < NBUF ==> 0 <= pos[i] < NBUF
  {
  }

  /** Nearer to the head means released later. */
  ghost predicate ByStamp(pos: seq<int>, stamp: seq<int>, clock: int) {
    && |pos| == |stamp| == NBUF
    && (forall a, b :: 0 <= a < NBUF && 0 <= b < NBUF && pos[a] < pos[b] ==> stamp[a] > stamp[b])
    && (forall a :: 0 <= a < NBUF ==> stamp[a] < clock)
  }
}
