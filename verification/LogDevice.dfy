/** log.c as it runs: the in-memory log header, the loops that copy blocks, and the disk
they write.  `trace` records the disk after every block write, so a crash between two
writes finds the disk in some state of `trace`. */
module LogDevice {
  import opened Types
  import opened BlockStore
  import opened LogFormat

  datatype LogWriteResult = Logged | TooBigTransaction | OutsideTransaction

  datatype EndResult = WokeWaiters | Committed | PanicCommitting

  lemma ConcatAssoc<T>(x: seq<T>, y: seq<T>, z: seq<T>)
    ensures (x + y) + z == x + (y + z)
  {
  }

  /** The header list after log_write of block b: absorbed if b is already there. */
  function Absorb(h: seq<nat>, b: nat): seq<nat> {
    if b in h then h else h + [b]
  }

  /** begin_op's test for room. */
  predicate Room(n: int, outstanding: int) {
    n + (outstanding + 1) * MAXOPBLOCKS <= LOGSIZE
  }

  function Total(adds: seq<nat>): nat {
    if adds == [] then 0 else Total(adds[..|adds| - 1]) + adds[|adds| - 1]
  }

  /** Whatever entries `ops` operations add to a list of n, each keeping to its share, the header block
      can take them. */
  ghost predicate AllFit(n: int, ops: int) {
    forall adds: seq<nat> :: |adds| == ops && InShare(adds) ==> n + Total(adds) <= LOGSIZE
  }

  predicate InShare(adds: seq<nat>) {
    forall i :: 0 <= i < |adds| ==> adds[i] <= MAXOPBLOCKS
  }

  lemma {:induction false} TotalAtMost(adds: seq<nat>)
    requires InShare(adds)
    ensures Total(adds) <= |adds| * MAXOPBLOCKS
  {
    if adds != [] { TotalAtMost(adds[..|adds| - 1]); }
  }

  lemma {:induction false} FullShares(k: nat) returns (adds: seq<nat>)
    ensures |adds| == k && InShare(adds) && Total(adds) == k * MAXOPBLOCKS
  {
    if k == 0 { return []; }
    var pre := FullShares(k - 1);
    adds := pre + [MAXOPBLOCKS];
    assert adds[..k - 1] == pre;
  }

  /** There is room for a caller exactly if the list takes all that the running operations and the caller
      may add. */
  lemma RoomMeans(n: int, outstanding: nat)
    ensures Room(n, outstanding) <==> AllFit(n, outstanding + 1)
  {
    if Room(n, outstanding) {
      forall adds: seq<nat> | |adds| == outstanding + 1 && InShare(adds) ensures n + Total(adds) <= LOGSIZE {
        TotalAtMost(adds);
      }
    } else {
      var adds := FullShares(outstanding + 1);
      assert n + Total(adds) > LOGSIZE;
    }
  }

  /** The disk the file system believes in: every block as bread returns it. */
  function View(s: Store): (d: Disk)
    ensures |d| == |s.disk|
  {
    seq(|s.disk|, b requires 0 <= b < |s.disk| => s.Read(b))
  }

  function ReadAll(s: Store, h: seq<nat>): (r: seq<Block>)
    requires forall i :: 0 <= i < |h| ==> h[i] < |s.disk|
    ensures |r| == |h|
  {
    seq(|h|, i requires 0 <= i < |h| => s.Read(h[i]))
  }

  /** Overlaying the cached contents of exactly the pinned blocks gives the cache's view. */
  lemma OverlayIsView(s: Store, a: Area, h: seq<nat>)
    requires Loggable(s.disk, a, h)
    requires forall b :: b in s.pinned <==> b in h
    ensures Overlay(s.disk, h, ReadAll(s, h)) == View(s)
  {
    forall b: nat | b < |s.disk| ensures Overlay(s.disk, h, ReadAll(s, h))[b] == s.Read(b) {
      OverlayAt(s.disk, h, ReadAll(s, h), b);
      if b in h { var i :| 0 <= i < |h| && h[i] == b; }
    }
  }

  /** Each image recovers to `before` while fewer than k writes are complete, then to `after`. */
  ghost predicate AtomicImages(before: Disk, after: Disk, a: Area, images: seq<Disk>, k: nat) {
    forall i :: 0 <= i < |images| ==> RecoversTo(images[i], a, if i < k then before else after)
  }

  lemma CommitImagesAtomic(d: Disk, a: Area, h: seq<nat>, data: seq<Block>, images: seq<Disk>)
    requires Recoverable(d, a) && Head(d, a) == []
    requires Loggable(d, a, h) && |data| == |h|
    requires |images| == CommitWrites(h)
    requires forall i :: 0 <= i < |images| ==> images[i] == CommitImage(d, a, h, data, i + 1)
    ensures AtomicImages(d, Overlay(d, h, data), a, images, |h|)
  {
    var after := Overlay(d, h, data);
    forall i | 0 <= i < |images|
      ensures RecoversTo(images[i], a, if i < |h| then d else after)
    {
      CommitAtomic(d, a, h, data, i + 1);
    }
  }

  /** An empty log recovers to the disk it is on. */
  lemma EmptyLogRecovers(d: Disk, a: Area)
    requires Recoverable(d, a) && Head(d, a) == []
    ensures HomeEq(Recover(d, a), d, a)
  {
  }

  /** What the images of a commit amount to for the cache they were copied from. */
  lemma CommitEffect(s: Store, a: Area, h: seq<nat>)
    requires Recoverable(s.disk, a) && Head(s.disk, a) == []
    requires Loggable(s.disk, a, h)
    requires forall b :: b in s.pinned <==> b in h
    ensures var images := CommitImages(s.disk, a, h, ReadAll(s, h));
      && AtomicImages(s.disk, View(s), a, images, |h|)
      && EmptyLogOf(images[|images| - 1], a, View(s))
  {
    var data := ReadAll(s, h);
    var images := CommitImages(s.disk, a, h, data);
    OverlayIsView(s, a, h);
    CommitImagesAtomic(s.disk, a, h, data, images);
    var c := SetHead(LogImage(s.disk, a, data, |h|), a, h);
    CommittedRecovers(s.disk, a, h, data);
    RecoverIsInstall(c, a);
    assert images[|images| - 1] == Recover(c, a);
  }

  /** The log is empty and the home blocks are those of `target`. */
  predicate EmptyLogOf(d: Disk, a: Area, target: Disk) {
    Recoverable(d, a) && Head(d, a) == [] && HomeEq(d, target, a)
  }

  class Log {
    const area: Area
    var outstanding: int
    var committing: bool
    var n: nat
    var block: seq<nat>
    var store: Store
    ghost var trace: seq<Disk>

    /** initlog: the log starts with a recovery; area comes from the superblock. */
    constructor (area: Area, disk: Disk)
      requires Recoverable(disk, area)
      ensures Valid() && this.area == area && store == Store(Recover(disk, area), map[])
      ensures outstanding == 0 && !committing && n == 0
      ensures trace == RecoveryImages(disk, area) && forall e :: e in trace ==> RecoversTo(e, area, Recover(disk, area))
    {
      this.area := area;
      outstanding, committing, n, block := 0, false, 0, seq(LOGSIZE, i => 0);
      store, trace := Store(disk, map[]), [];
      new;
      RecoverFromLog();
      assert trace[0..] == trace;
    }

    /** log.lh as a list. */
    ghost function Lh(): seq<nat>
      requires n <= |block|
      reads this
    {
      block[..n]
    }

    /** Between operations: nothing committed is waiting in the log, the header list has no
        block twice, and the pinned blocks are exactly the listed ones. */
    ghost predicate Valid()
      reads this
    {
      && |block| == LOGSIZE && n <= LOGSIZE
      && Recoverable(store.disk, area) && Head(store.disk, area) == []
      && Loggable(store.disk, area, Lh())
      && (forall i, j :: 0 <= i < j < n ==> block[i] != block[j])
      && (forall b :: b in store.pinned <==> b in Lh())
    }

    method Bwrite(b: nat, data: Block)
      requires b < |store.disk|
      modifies this`store, this`trace
      ensures store == old(store).Write(b, data)
      ensures trace == old(trace) + [store.disk]
    {
      store := store.Write(b, data);
      trace := trace + [store.disk];
    }

    method WriteLog()
      requires |block| == LOGSIZE && n <= LOGSIZE && Loggable(store.disk, area, Lh())
      requires forall b :: b in store.pinned ==> !area.Contains(b)
      modifies this`store, this`trace
      ensures store == Store(LogImage(old(store.disk), area, ReadAll(old(store), Lh()), n), old(store.pinned))
      ensures trace == old(trace) + LogImages(old(store.disk), area, ReadAll(old(store), Lh()), n)
    {
      ghost var s, h := store, Lh();
      ghost var data := ReadAll(s, h);
      var tail := 0;
      while tail < n
        invariant tail <= n
        invariant store == Store(LogImage(s.disk, area, data, tail), s.pinned)
        invariant trace == old(trace) + LogImages(s.disk, area, data, tail)
      {
        assert h[tail] == block[tail];
        var from := store.Read(block[tail]);
        LogImageAt(s.disk, area, data, tail, block[tail]);
        Bwrite(area.start + tail + 1, from);
        assert store.pinned == s.pinned;
        tail := tail + 1;
      }
    }

    method WriteHead()
      requires |block| == LOGSIZE && n <= LOGSIZE && Layout(store.disk, area)
      requires area.start !in store.pinned
      modifies this`store, this`trace
      ensures store == Store(SetHead(old(store.disk), area, Lh()), old(store.pinned))
      ensures trace == old(trace) + [store.disk]
    {
      var hb := store.Read(area.start);
      ghost var hb0 := hb;
      hb := hb[0 := n];
      var i := 0;
      while i < n
        invariant i <= n && |hb| == WORDS
        invariant hb == [n] + block[..i] + hb0[1 + i..]
      {
        hb := hb[1 + i := block[i]];
        i := i + 1;
      }
      Bwrite(area.start, hb);
      assert store.pinned == old(store.pinned);
    }

    method InstallTrans()
      requires |block| == LOGSIZE && n <= LOGSIZE && Loggable(store.disk, area, Lh())
      requires forall b :: b in store.pinned ==> !area.Contains(b)
      modifies this`store, this`trace
      ensures store.disk == InstallImage(old(store.disk), area, Lh(), n)
      ensures store.pinned == old(store.pinned) - (set b | b in Lh())
      ensures trace == old(trace) + InstallImages(old(store.disk), area, Lh(), n)
    {
      ghost var s, h := store, Lh();
      var tail := 0;
      while tail < n
        invariant tail <= n
        invariant store.disk == InstallImage(s.disk, area, h, tail)
        invariant store.pinned == s.pinned - (set b | b in h[..tail])
        invariant trace == old(trace) + InstallImages(s.disk, area, h, tail)
      {
        assert h[tail] == block[tail] && h[..tail + 1] == h[..tail] + [block[tail]];
        var lbuf := store.Read(area.start + tail + 1);
        InstallKeepsLog(s.disk, area, h, tail, area.start + tail + 1);
        Bwrite(block[tail], lbuf);
        tail := tail + 1;
      }
      assert h[..n] == h;
    }

    /** The four passes of commit(), as the disk sees them. */
    method WriteInstallErase()
      requires |block| == LOGSIZE && n <= LOGSIZE && Loggable(store.disk, area, Lh())
      requires forall b :: b in store.pinned <==> b in Lh()
      modifies this`store, this`trace, this`n
      ensures n == 0 && store.pinned == map[]
      ensures trace == old(trace) + CommitImages(old(store.disk), area, old(Lh()), ReadAll(old(store), old(Lh())))
      ensures store.disk == trace[|trace| - 1]
    {
      hide LogImages, InstallImages, LogImage, InstallImage, ReadAll;
      ghost var s, h, t := store, Lh(), trace;
      ghost var data := ReadAll(s, h);
      WriteLog();
      ghost var l := LogImages(s.disk, area, data, |h|);
      WriteHead();
      ghost var c := store.disk;
      ConcatAssoc(t, l, [c]);
      InstallTrans();
      ghost var i := InstallImages(c, area, h, |h|);
      ConcatAssoc(t, l + [c], i);
      assert store.pinned == map[];
      n := 0;
      WriteHead();
      assert block[..n] == [];
      ConcatAssoc(t, l + [c] + i, [store.disk]);
    }

    /** commit(): the disk passes through the images of LogFormat.CommitImages and no others;
        each recovers to the disk before the commit or, from the header write on, to the
        cache's whole view, and the last one holds that view with an empty log. */
    method Commit()
      requires Valid()
      modifies this`store, this`trace, this`n
      ensures Valid() && n == 0 && store.pinned == map[]
      ensures EmptyLogOf(store.disk, area, View(old(store)))
      ensures old(n) == 0 ==> trace == old(trace) && store == old(store)
      ensures old(n) > 0 ==>
        && trace == old(trace) + CommitImages(old(store.disk), area, old(Lh()), ReadAll(old(store), old(Lh())))
        && AtomicImages(old(store.disk), View(old(store)), area, trace[|old(trace)|..], old(n))
    {
      ghost var s, h := store, Lh();
      if n > 0 {
        CommitEffect(s, area, h);
        WriteInstallErase();
        assert trace[|old(trace)|..] == CommitImages(s.disk, area, h, ReadAll(s, h));
      } else {
        assert View(s) == s.disk;
      }
    }

    /** recover_from_log on a freshly booted machine: the result is the recovered disk with an
        empty log, and every disk it passes through still recovers to the same home blocks. */
    method RecoverFromLog()
      requires |block| == LOGSIZE && store.pinned == map[] && Recoverable(store.disk, area)
      modifies this`store, this`trace, this`n, this`block
      ensures Valid() && n == 0 && store == Store(Recover(old(store.disk), area), map[])
      ensures trace == old(trace) + RecoveryImages(old(store.disk), area)
      ensures forall e :: e in trace[|old(trace)|..] ==>
        RecoversTo(e, area, Recover(old(store.disk), area))
    {
      ghost var d := store.disk;
      ReadHead();
      InstallTrans();
      n := 0;
      assert store.pinned == map[];
      WriteHead();
      assert Lh() == [];
      assert trace == old(trace) + RecoveryImages(d, area);
      forall i | |old(trace)| <= i < |trace|
        ensures RecoversTo(trace[i], area, Recover(d, area))
      {
        RecoveryIdempotent(d, area, i - |old(trace)| + 1);
      }
      RecoverIsInstall(d, area);
    }

    method ReadHead()
      requires |block| == LOGSIZE && store.pinned == map[] && Recoverable(store.disk, area)
      modifies this`n, this`block
      ensures |block| == LOGSIZE && n <= LOGSIZE && Lh() == Head(store.disk, area)
    {
      var lh := store.Read(area.start);
      n := lh[0];
      var i := 0;
      while i < n
        invariant i <= n <= LOGSIZE && n == lh[0] && |block| == LOGSIZE && block[..i] == lh[1..1 + i]
      {
        block := block[i := lh[1 + i]];
        assert block[..i + 1] == block[..i] + [lh[1 + i]];
        i := i + 1;
      }
    }

    /** One pass of begin_op's loop under log.lock: admitted, or the caller sleeps. */
    method BeginOp() returns (admitted: bool)
      modifies this`outstanding
      ensures admitted <==> !committing && Room(n, old(outstanding))
      ensures old(outstanding) >= 0 ==> (admitted <==> !committing && AllFit(n, old(outstanding) + 1))
      ensures outstanding == old(outstanding) + if admitted then 1 else 0
    {
      if outstanding >= 0 { RoomMeans(n, outstanding); }
      hide AllFit;
      if committing || n + (outstanding + 1) * MAXOPBLOCKS > LOGSIZE { return false; }
      outstanding := outstanding + 1;
      return true;
    }

    /** end_op with nothing else running: the last operation out commits the whole group. */
    method EndOp() returns (r: EndResult)
      requires Valid()
      modifies this`outstanding, this`committing, this`store, this`trace, this`n
      ensures outstanding == old(outstanding) - 1 && committing == old(committing)
      ensures r == if old(committing) then PanicCommitting
                   else if old(outstanding) == 1 then Committed else WokeWaiters
      ensures Valid()
      ensures r == Committed ==> n == 0 && store.pinned == map[] && HomeEq(store.disk, View(old(store)), area)
      ensures r != Committed ==> store == old(store) && trace == old(trace) && n == old(n)
    {
      outstanding := outstanding - 1;
      if committing { return PanicCommitting; }
      if outstanding == 0 {
        committing := true;
        Commit();
        committing := false;
        return Committed;
      }
      return WokeWaiters;
    }

    /** log_write of a modified buffer for home block b. */
    method LogWrite(b: nat, data: Block) returns (r: LogWriteResult)
      requires Valid() && b < |store.disk| && !area.Contains(b)
      modifies this`n, this`block, this`store
      ensures r == if old(n) >= LOGSIZE || old(n) >= area.size - 1 then TooBigTransaction
                   else if outstanding < 1 then OutsideTransaction else Logged
      ensures Valid()
      ensures r == Logged ==>
        Lh() == Absorb(old(Lh()), b) && store == old(store).Pin(b, data)
      ensures r != Logged ==> n == old(n) && block == old(block) && store == old(store)
    {
      if n >= LOGSIZE || n >= area.size - 1 { return TooBigTransaction; }
      if outstanding < 1 { return OutsideTransaction; }
      ghost var h := Lh();
      var i := 0;
      while i < n
        invariant i <= n && b !in block[..i]
      {
        if block[i] == b { break; }
        i := i + 1;
      }
      block := block[i := b];
      if i == n { n := n + 1; }
      store := store.Pin(b, data);
      assert Lh() == Absorb(h, b) by {
        if i < |h| { assert h[i] == b; }
      }
      return Logged;
    }
  }
}
