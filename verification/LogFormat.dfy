/** The on-disk log of log.c: a header block followed by log blocks, and the sequence of
disk images that a commit and a recovery pass through, one block write at a time. */
module LogFormat {
  import opened Types
  import opened BlockStore

  const LOGSIZE: nat := 3 * MAXOPBLOCKS

  /** log.start and log.size. */
  datatype Area = Area(start: nat, size: nat) {
    predicate Contains(b: nat) {
      start <= b < start + size
    }
  }

  /** The area fits on the disk and has room for the header. */
  predicate Layout(d: Disk, a: Area) {
    0 < a.size && a.start + a.size <= |d|
  }

  /** The blocks of h are blocks of the disk outside the log. */
  predicate HomeBlocks(d: Disk, a: Area, h: seq<nat>) {
    forall i :: 0 <= i < |h| ==> h[i] < |d| && !a.Contains(h[i])
  }

  /** A header list that the log can hold: short enough for the header block and for the
      log blocks behind it, naming only blocks outside the log. */
  predicate Loggable(d: Disk, a: Area, h: seq<nat>) {
    Layout(d, a) && |h| <= LOGSIZE && |h| < a.size && HomeBlocks(d, a, h)
  }

  /** Decoding a header block: word 0 is n, words 1..n the block numbers. */
  function HeadBlocks(b: Block): (h: seq<nat>)
    requires b[0] <= LOGSIZE
    ensures |h| == b[0]
  {
    b[1..1 + b[0]]
  }

  /** write_head leaves the words behind the first n entries as they were. */
  function PutHead(b: Block, h: seq<nat>): (r: Block)
    requires |h| <= LOGSIZE
    ensures r[0] <= LOGSIZE && HeadBlocks(r) == h
  {
    [|h|] + h + b[1 + |h|..]
  }

  /** The disk carries a header that recovery can follow. */
  predicate Recoverable(d: Disk, a: Area) {
    && Layout(d, a)
    && d[a.start][0] <= LOGSIZE
    && Loggable(d, a, HeadBlocks(d[a.start]))
  }

  function Head(d: Disk, a: Area): seq<nat>
    requires Recoverable(d, a)
  {
    HeadBlocks(d[a.start])
  }

  function SetHead(d: Disk, a: Area, h: seq<nat>): Disk
    requires Layout(d, a) && |h| <= LOGSIZE
  {
    d[a.start := PutHead(d[a.start], h)]
  }

  /** The image after k block writes of write_log. */
  function LogImage(d: Disk, a: Area, data: seq<Block>, k: nat): (r: Disk)
    requires Layout(d, a) && k <= |data| < a.size
    ensures |r| == |d|
  {
    if k == 0 then d else LogImage(d, a, data, k - 1)[a.start + k := data[k - 1]]
  }

  /** The image after k block writes of install_trans. */
  function InstallImage(d: Disk, a: Area, h: seq<nat>, k: nat): (r: Disk)
    requires Loggable(d, a, h) && k <= |h|
    ensures |r| == |d|
  {
    if k == 0 then d else InstallImage(d, a, h, k - 1)[h[k - 1] := d[a.start + k]]
  }

  /** The image after i block writes of recover_from_log started on d. */
  function RecoveryImage(d: Disk, a: Area, i: nat): (r: Disk)
    requires Recoverable(d, a) && i <= |Head(d, a)| + 1
  {
    var h := Head(d, a);
    if i <= |h| then InstallImage(d, a, h, i)
    else SetHead(InstallImage(d, a, h, |h|), a, [])
  }

  /** What an uninterrupted recovery leaves. */
  function Recover(d: Disk, a: Area): Disk
    requires Recoverable(d, a)
  {
    RecoveryImage(d, a, |Head(d, a)| + 1)
  }

  /** The image after i block writes of commit() for header list h with cached contents data. */
  function CommitImage(d: Disk, a: Area, h: seq<nat>, data: seq<Block>, i: nat): (r: Disk)
    requires Loggable(d, a, h) && |data| == |h| && i <= CommitWrites(h)
    ensures |r| == |d|
  {
    if i <= |h| then LogImage(d, a, data, i)
    else
      var c := SetHead(LogImage(d, a, data, |h|), a, h);
      if i <= 2 * |h| + 1 then InstallImage(c, a, h, i - |h| - 1)
      else SetHead(InstallImage(c, a, h, |h|), a, [])
  }

  /** The images of the first k block writes of write_log. */
  function LogImages(d: Disk, a: Area, data: seq<Block>, k: nat): (r: seq<Disk>)
    requires Layout(d, a) && k <= |data| < a.size
    ensures |r| == k
  {
    seq(k, i requires 0 <= i < k => LogImage(d, a, data, i + 1))
  }

  /** The images of the first k block writes of install_trans. */
  function InstallImages(d: Disk, a: Area, h: seq<nat>, k: nat): (r: seq<Disk>)
    requires Loggable(d, a, h) && k <= |h|
    ensures |r| == k
  {
    seq(k, i requires 0 <= i < k => InstallImage(d, a, h, i + 1))
  }

  /** All images of a commit, in order. */
  function CommitImages(d: Disk, a: Area, h: seq<nat>, data: seq<Block>): (r: seq<Disk>)
    requires Loggable(d, a, h) && |data| == |h|
    ensures |r| == CommitWrites(h)
    ensures forall i :: 0 <= i < |r| ==> r[i] == CommitImage(d, a, h, data, i + 1)
  {
    var c := SetHead(LogImage(d, a, data, |h|), a, h);
    LogImages(d, a, data, |h|) + [c] + InstallImages(c, a, h, |h|) +
    [SetHead(InstallImage(c, a, h, |h|), a, [])]
  }

  /** All images of a recovery, in order. */
  function RecoveryImages(d: Disk, a: Area): (r: seq<Disk>)
    requires Recoverable(d, a)
    ensures |r| == |Head(d, a)| + 1
    ensures forall i :: 0 <= i < |r| ==> r[i] == RecoveryImage(d, a, i + 1)
  {
    var h := Head(d, a);
    InstallImages(d, a, h, |h|) + [SetHead(InstallImage(d, a, h, |h|), a, [])]
  }

  /** Number of block writes of a commit of a non-empty header list. */
  function CommitWrites(h: seq<nat>): nat { 2 * |h| + 2 }

  /** Equal outside the log area: what the file system can see. */
  predicate HomeEq(d: Disk, e: Disk, a: Area) {
    |d| == |e| && forall b :: 0 <= b < |d| && !a.Contains(b) ==> d[b] == e[b]
  }

  /** After a crash that leaves disk d, recovery brings back the home blocks of `target`. */
  predicate RecoversTo(d: Disk, a: Area, target: Disk) {
    Recoverable(d, a) && HomeEq(Recover(d, a), target, a)
  }

  /** d with every block of h replaced by its entry of data: the effect a commit stands for. */
  function Overlay(d: Disk, h: seq<nat>, data: seq<Block>): (r: Disk)
    requires |h| == |data| && forall i :: 0 <= i < |h| ==> h[i] < |d|
    ensures |r| == |d|
  {
    if h == [] then d
    else Overlay(d, h[..|h| - 1], data[..|h| - 1])[h[|h| - 1] := data[|h| - 1]]
  }

  lemma {:induction false} LogImageAt(d: Disk, a: Area, data: seq<Block>, k: nat, b: nat)
    requires Layout(d, a) && k <= |data| < a.size && b < |d|
    ensures LogImage(d, a, data, k)[b] ==
            if a.start < b <= a.start + k then data[b - a.start - 1] else d[b]
  {
    if k > 0 { LogImageAt(d, a, data, k - 1, b); }
  }

  /** Installing never touches the log area. */
  lemma {:induction false} InstallKeepsLog(d: Disk, a: Area, h: seq<nat>, k: nat, b: nat)
    requires Loggable(d, a, h) && k <= |h| && a.Contains(b)
    ensures InstallImage(d, a, h, k)[b] == d[b]
  {
    if k > 0 { InstallKeepsLog(d, a, h, k - 1, b); }
  }

  lemma {:induction false} InstallKeepsOther(d: Disk, a: Area, h: seq<nat>, k: nat, b: nat)
    requires Loggable(d, a, h) && k <= |h| && b < |d| && b !in h[..k]
    ensures InstallImage(d, a, h, k)[b] == d[b]
  {
    if k > 0 {
      assert h[k - 1] in h[..k];
      InstallKeepsOther(d, a, h, k - 1, b);
    }
  }

  /** The two writes of the header in a commit. */
  lemma HeadWrite(d: Disk, a: Area, h: seq<nat>, data: seq<Block>)
    requires Loggable(d, a, h) && |data| == |h|
    ensures CommitImage(d, a, h, data, |h| + 1) == SetHead(CommitImage(d, a, h, data, |h|), a, h)
    ensures CommitImage(d, a, h, data, 2 * |h| + 2) == SetHead(CommitImage(d, a, h, data, 2 * |h| + 1), a, [])
  {
  }

  /** install_trans reads its log block from the disk as it then is. */
  lemma InstallWrite(d: Disk, a: Area, h: seq<nat>, data: seq<Block>, k: nat)
    requires Loggable(d, a, h) && |data| == |h| && |h| < k <= 2 * |h|
    ensures var j, e := k - |h| - 1, CommitImage(d, a, h, data, k);
            CommitImage(d, a, h, data, k + 1) == e[h[j] := e[a.start + 1 + j]]
  {
    var j, c := k - |h| - 1, SetHead(LogImage(d, a, data, |h|), a, h);
    InstallKeepsLog(c, a, h, j, a.start + 1 + j);
  }

  /** Two disks with the same log blocks install the same values, whatever was at home before. */
  lemma {:induction false} InstallAgrees(d: Disk, e: Disk, a: Area, h: seq<nat>, k: nat, b: nat)
    requires Loggable(d, a, h) && Loggable(e, a, h) && |d| == |e| && k <= |h| && b < |d|
    requires forall c :: a.start < c < a.start + a.size ==> d[c] == e[c]
    requires d[b] == e[b] || b in h[..k]
    ensures InstallImage(d, a, h, k)[b] == InstallImage(e, a, h, k)[b]
  {
    if k > 0 && h[k - 1] != b { InstallAgrees(d, e, a, h, k - 1, b); }
  }

  lemma {:induction false} RecoverIsInstall(d: Disk, a: Area)
    requires Recoverable(d, a)
    ensures HomeEq(Recover(d, a), InstallImage(d, a, Head(d, a), |Head(d, a)|), a)
    ensures Recoverable(Recover(d, a), a) && Head(Recover(d, a), a) == []
  {
  }

  /** A crash after any number of recovery's block writes leaves a disk that recovers to the
      same home blocks as the disk recovery started from. */
  lemma RecoveryIdempotent(d: Disk, a: Area, i: nat)
    requires Recoverable(d, a) && i <= |Head(d, a)| + 1
    ensures RecoversTo(RecoveryImage(d, a, i), a, Recover(d, a))
  {
    var h := Head(d, a);
    if i <= |h| {
      var e := InstallImage(d, a, h, i);
      forall c: nat | a.Contains(c) ensures e[c] == d[c] { InstallKeepsLog(d, a, h, i, c); }
      RecoverIsInstall(d, a);
      RecoverIsInstall(e, a);
      forall b | 0 <= b < |d| && !a.Contains(b)
        ensures InstallImage(e, a, h, |h|)[b] == InstallImage(d, a, h, |h|)[b]
      {
        if b !in h[..|h|] { InstallKeepsOther(d, a, h, i, b); }
        InstallAgrees(e, d, a, h, |h|, b);
      }
    } else {
      RecoverIsInstall(d, a);
      RecoverIsInstall(Recover(d, a), a);
    }
  }

  /** Any number of crashes inside recovery: crashes[j] is the number of block writes that the
      j-th interrupted recovery completed. */
  function Crashed(d: Disk, a: Area, crashes: seq<nat>): (r: Disk)
    requires Recoverable(d, a)
    ensures Recoverable(r, a)
    decreases |crashes|
  {
    if crashes == [] then d
    else
      var n := |Head(d, a)| + 1;
      var i := if crashes[0] <= n then crashes[0] else n;
      RecoveryIdempotent(d, a, i);
      Crashed(RecoveryImage(d, a, i), a, crashes[1..])
  }

  lemma {:induction false} RecoveryUnderCrashes(d: Disk, a: Area, crashes: seq<nat>)
    requires Recoverable(d, a)
    ensures RecoversTo(Crashed(d, a, crashes), a, Recover(d, a))
    decreases |crashes|
  {
    if crashes != [] {
      var n := |Head(d, a)| + 1;
      var i := if crashes[0] <= n then crashes[0] else n;
      RecoveryIdempotent(d, a, i);
      RecoveryUnderCrashes(RecoveryImage(d, a, i), a, crashes[1..]);
    }
  }

  /** Writing the log and its header, then installing, is the overlay. */
  lemma {:induction false} InstallIsOverlay(d: Disk, c: Disk, a: Area, h: seq<nat>, data: seq<Block>, k: nat)
    requires Loggable(d, a, h) && |c| == |d| && |data| == |h| && k <= |h|
    requires HomeEq(c, d, a)
    requires forall j :: 0 <= j < |h| ==> c[a.start + 1 + j] == data[j]
    ensures HomeEq(InstallImage(c, a, h, k), Overlay(d, h[..k], data[..k]), a)
  {
    if k > 0 {
      InstallIsOverlay(d, c, a, h, data, k - 1);
      assert h[..k][..k - 1] == h[..k - 1] && data[..k][..k - 1] == data[..k - 1];
      assert c[a.start + 1 + (k - 1)] == data[k - 1];
    }
  }

  /** The header block a commit writes makes its image recover to the overlay. */
  lemma CommittedRecovers(d: Disk, a: Area, h: seq<nat>, data: seq<Block>)
    requires Loggable(d, a, h) && |data| == |h|
    ensures var c := SetHead(LogImage(d, a, data, |h|), a, h);
            && Recoverable(c, a) && Head(c, a) == h
            && HomeEq(Recover(c, a), Overlay(d, h, data), a)
  {
    var l := LogImage(d, a, data, |h|);
    var c := SetHead(l, a, h);
    forall b | 0 <= b < |d| ensures l[b] == if a.start < b <= a.start + |h| then data[b - a.start - 1] else d[b] {
      LogImageAt(d, a, data, |h|, b);
    }
    InstallIsOverlay(d, c, a, h, data, |h|);
    assert h[..|h|] == h && data[..|h|] == data;
    RecoverIsInstall(c, a);
  }

  /** Crash atomicity of commit: after any number i of its block writes the disk recovers to
      the old home blocks (i <= n, the header not yet written) or to the complete overlay. */
  lemma CommitAtomic(d: Disk, a: Area, h: seq<nat>, data: seq<Block>, i: nat)
    requires Recoverable(d, a) && Head(d, a) == []
    requires Loggable(d, a, h) && |data| == |h| && i <= CommitWrites(h)
    ensures RecoversTo(CommitImage(d, a, h, data, i), a, if i <= |h| then d else Overlay(d, h, data))
  {
    if i <= |h| {
      var e := LogImage(d, a, data, i);
      forall b | 0 <= b < |d| ensures e[b] == if a.start < b <= a.start + i then data[b - a.start - 1] else d[b] {
        LogImageAt(d, a, data, i, b);
      }
      RecoverIsInstall(e, a);
    } else {
      CommittedRecovers(d, a, h, data);
      var c := SetHead(LogImage(d, a, data, |h|), a, h);
      RecoveryIdempotent(c, a, i - |h| - 1);
    }
  }

  /** Pointwise meaning of the overlay when data holds what the cache returns for each block. */
  lemma {:induction false} OverlayAt(d: Disk, h: seq<nat>, data: seq<Block>, b: nat)
    requires |h| == |data| && b < |d| && forall i :: 0 <= i < |h| ==> h[i] < |d|
    requires forall i, j :: 0 <= i < j < |h| && h[i] == h[j] ==> data[i] == data[j]
    ensures b !in h ==> Overlay(d, h, data)[b] == d[b]
    ensures forall i :: 0 <= i < |h| && h[i] == b ==> Overlay(d, h, data)[b] == data[i]
  {
    if h != [] {
      var n := |h| - 1;
      OverlayAt(d, h[..n], data[..n], b);
      assert h == h[..n] + [h[n]];
    }
  }
}
