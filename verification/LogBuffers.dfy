/** The log over the buffer cache: a commit reads every log block through bget, which needs a buffer
that is neither in use nor pinned by the log itself. */
module LogBuffers {
  import opened Types
  import opened BlockStore
  import opened LogFormat
  import opened LogProtocol
  import opened LogLimits
  import Bio = BufferCache

  /** The buffers stand for the store. */
  ghost predicate Caches(bufs: seq<Bio.Buf>, store: Store) {
    |bufs| == NBUF && Bio.Coherent(bufs, store.disk) && Bio.Represents(bufs, store.disk, store)
  }

  ghost predicate Spare(bufs: seq<Bio.Buf>) {
    exists i :: 0 <= i < |bufs| && Bio.Recyclable(bufs[i])
  }

  /** bget of block b of the disk has a buffer to give. */
  ghost predicate Gives(bufs: seq<Bio.Buf>, b: nat) {
    Spare(bufs) || exists i :: 0 <= i < |bufs| && Bio.Holds(bufs[i], Bio.ROOTDEV, b)
  }

  lemma {:induction false} ElemsAtMost(h: seq<nat>)
    ensures |Elems(h)| <= |h|
    ensures NoDup(h) ==> |Elems(h)| == |h|
  {
    if h != [] {
      var n := |h| - 1;
      ElemsAtMost(h[..n]);
      assert Elems(h) == Elems(h[..n]) + {h[n]};
      assert NoDup(h) ==> h[n] !in Elems(h[..n]);
    }
  }

  lemma PinnedAtMost(s: State)
    requires PinOk(s)
    ensures |s.store.pinned| <= |s.lh|
    ensures NoDup(s.lh) && (forall b :: b in s.lh ==> b in s.store.pinned) ==> |s.store.pinned| == |s.lh|
  {
    ElemsAtMost(s.lh);
    SubsetAtMost(s.store.pinned.Keys, Elems(s.lh));
    assert |s.store.pinned| == |s.store.pinned.Keys|;
    if forall b :: b in s.lh ==> b in s.store.pinned { assert s.store.pinned.Keys == Elems(s.lh); }
  }

  /** In every state of every run, bget has a buffer for whatever block is read if the longest list that
      the log area allows, together with the clean buffers in use, is shorter than the cache. */
  lemma CommitFindsBuffer(c: Setup, ss: seq<State>, ts: seq<Step>, i: nat, bufs: seq<Bio.Buf>, b: nat)
    requires Run(c, ss, ts) && i < |ss| && Caches(bufs, ss[i].store) && MaxList(c) + Bio.InUse(bufs) < NBUF
    ensures Spare(bufs) && Gives(bufs, b)
  {
    hide Next, Init, PinOk, Bio.Coherent, Bio.Represents;
    var s := ss[i];
    RunOrder(c, ss, ts, i);
    ListBounded(c, ss, ts, i);
    PinnedAtMost(s);
    Bio.SpareBuffer(bufs, s.store.disk, s.store);
  }

  /** The other block of each round of write_log and install_trans is pinned, so that bget finds it. */
  lemma PinnedIsCached(bufs: seq<Bio.Buf>, store: Store, b: nat)
    requires Caches(bufs, store) && b in store.pinned
    ensures Gives(bufs, b)
  {
    var i :| 0 <= i < |bufs| && bufs[i].dirty && bufs[i].blockno == b;
    assert Bio.Holds(bufs[i], Bio.ROOTDEV, b);
  }

  /** When a commit starts, bget has no buffer for any log block if the list is as long as the cache; if it
      is shorter and nobody uses a buffer, bget has one. */
  lemma CommitPanicsExactly(c: Setup, ss: seq<State>, ts: seq<Step>, i: nat, bufs: seq<Bio.Buf>, b: nat)
    requires Run(c, ss, ts) && i < |ss| && ss[i].phase.Committing? && ss[i].phase.writes == 0
    requires Caches(bufs, ss[i].store) && c.area.Contains(b)
    ensures CommitPanics(ss[i]) ==> !Gives(bufs, b)
    ensures Bio.InUse(bufs) == 0 ==> (Gives(bufs, b) <==> !CommitPanics(ss[i]))
  {
    var s := ss[i];
    RunOrder(c, ss, ts, i);
    ListBounded(c, ss, ts, i);
    PinnedAtMost(s);
    assert b !in s.store.pinned;
    hide Run, Order, Caches;
    if CommitPanics(s) {
      AllPinned(bufs, s.store, b);
    } else {
      SpareWhenShort(bufs, s.store);
    }
  }

  lemma SpareWhenShort(bufs: seq<Bio.Buf>, store: Store)
    requires Caches(bufs, store)
    ensures |store.pinned| + Bio.InUse(bufs) < NBUF ==> Spare(bufs)
  {
    Bio.SpareBuffer(bufs, store.disk, store);
  }

  /** The bound is exact: a run reaches a commit in which, whatever the buffers are, one can be recycled
      only under that condition.  When the longest list is as long as the cache, as with the log that mkfs
      makes, bget has no buffer for any log block. */
  lemma CommitWithoutBuffer(c: Setup, data: Block) returns (ss: seq<State>, ts: seq<Step>)
    requires Roomy(c)
    ensures Run(c, ss, ts) && ss[|ss| - 1].phase == Committing(ss[|ss| - 1].store, 0) && |ss[|ss| - 1].lh| == MaxList(c)
    ensures forall bufs :: Caches(bufs, ss[|ss| - 1].store) ==>
      (Spare(bufs) <==> MaxList(c) + Bio.InUse(bufs) < NBUF)
    ensures MaxList(c) == NBUF ==>
      forall bufs, b: nat :: Caches(bufs, ss[|ss| - 1].store) && c.area.Contains(b) ==> !Gives(bufs, b)
  {
    ss, ts := LongestList(c, data);
    var s := ss[|ss| - 1];
    RowDistinct(c, s, MaxList(c), data);
    ss, ts := EndAll(c, ss, ts);
    var s' := ss[|ss| - 1];
    RunOrder(c, ss, ts, |ss| - 1);
    PinnedAtMost(s');
    assert forall b :: b in s'.store.pinned ==> !c.area.Contains(b);
    hide Run, Row, Order, MaxList;
    forall bufs | Caches(bufs, s'.store) ensures Spare(bufs) <==> MaxList(c) + Bio.InUse(bufs) < NBUF {
      Bio.SpareBuffer(bufs, s'.store.disk, s'.store);
    }
    if MaxList(c) == NBUF {
      forall bufs, b: nat | Caches(bufs, s'.store) && c.area.Contains(b) ensures !Gives(bufs, b) {
        AllPinned(bufs, s'.store, b);
      }
    }
  }

  /** With every buffer pinned, a block that is not pinned is in none. */
  lemma AllPinned(bufs: seq<Bio.Buf>, store: Store, b: nat)
    requires Caches(bufs, store) && |store.pinned| == NBUF && b !in store.pinned
    ensures !Gives(bufs, b)
  {
    Bio.DirtyAll(bufs, store.disk, store);
  }
}
