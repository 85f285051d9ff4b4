/** The logging protocol under every interleaving: operations begin, log blocks and end; the
last one out commits block by block; the machine may crash at any moment, also inside
recovery.  log_write tests the length of the list before it takes the lock, so the test and the
append are two steps.  The states carry the history of writes so that the theorems can say which
writes a crash keeps. */
module LogProtocol {
  import opened Types
  import opened BlockStore
  import opened LogFormat
  import opened LogDevice

  type OpId = nat

  datatype Write = Write(op: OpId, block: nat, data: Block)

  datatype Phase =
    | Up
    | Committing(base: Store, writes: nat)
    | Recovering(from: Disk, replayed: nat)

  /** running: operations between begin_op and end_op, with the header entries each has added.
      checked: those inside log_write, past its tests and not yet at its lock, with their block.
      sleeping: callers asleep in begin_op.
      Histories: cur the writes since the last commit, groups the committed groups, hist the
      writes of every operation ever begun, live the operations begun since the last commit. */
  datatype State = State(
    store: Store,
    lh: seq<nat>,
    running: map<OpId, nat>,
    checked: map<OpId, nat>,
    sleeping: set<nat>,
    phase: Phase,
    cur: seq<Write>,
    groups: seq<seq<Write>>,
    hist: map<OpId, seq<Write>>,
    live: set<OpId>
  )

  /** The parameters of a run: where the log lies and what the disk held at first. */
  datatype Setup = Setup(area: Area, disk0: Disk)

  predicate Init(c: Setup, s: State) {
    && EmptyLogOf(c.disk0, c.area, c.disk0)
    && s == State(Store(c.disk0, map[]), [], map[], map[], {}, Up, [], [], map[], {})
  }

  // ----- steps -----

  datatype Step =
    | Begin(op: OpId)
    | Sleep(pid: nat)
    | Check(op: OpId, block: nat)
    | LogWrite(op: OpId, block: nat, data: Block)
    | EndOp(op: OpId)
    | CommitWrite
    | CommitDone
    | Crash
    | RecoveryWrite
    | RecoveryDone

  /** log_write's two size checks. */
  predicate LogWritePanics(c: Setup, s: State) {
    |s.lh| >= LOGSIZE || |s.lh| >= c.area.size - 1
  }

  /** When a step can happen.  Check carries the callers' promise that one operation adds at
      most MAXOPBLOCKS distinct blocks; nothing here says that committing excludes operations. */
  predicate Enabled(c: Setup, s: State, t: Step) {
    match t
    case Begin(op) => s.phase.Up? && Room(|s.lh|, |s.running|) && op !in s.hist
    case Sleep(pid) => s.phase.Committing? || (s.phase.Up? && !Room(|s.lh|, |s.running|))
    case Check(op, b) =>
      && !s.phase.Recovering? && op in s.running && op !in s.checked
      && b < |s.store.disk| && !c.area.Contains(b)
      && !LogWritePanics(c, s)
      && (b !in s.lh ==> s.running[op] < MAXOPBLOCKS)
    case LogWrite(op, b, data) =>
      && !s.phase.Recovering? && op in s.running && op in s.checked && s.checked[op] == b
      && b < |s.store.disk| && !c.area.Contains(b)
      && (b !in s.lh ==> s.running[op] < MAXOPBLOCKS)
    case EndOp(op) => !s.phase.Recovering? && op in s.running && op !in s.checked
    case CommitWrite => CommitCan(c, s)
    case CommitDone => s.phase.Committing? && (s.lh == [] || s.phase.writes == CommitWrites(s.lh))
    case Crash => true
    case RecoveryWrite =>
      s.phase.Recovering? && Recoverable(s.phase.from, c.area) &&
      s.phase.replayed <= |Head(s.phase.from, c.area)|
    case RecoveryDone =>
      s.phase.Recovering? && Recoverable(s.phase.from, c.area) &&
      s.phase.replayed == |Head(s.phase.from, c.area)| + 1
  }

  /** The listed blocks stay pinned until they are installed, so a list as long as the cache leaves bget no
      buffer for the first log block (CommitPanicsExactly). */
  predicate CommitPanics(s: State) { s.phase.Committing? && |s.lh| >= NBUF }

  /** write_log and install_trans hold the buffers of log block j and home block j together: behind the
      disk the driver panics, and a block that is both would wait for itself.  Only a list that has
      outgrown the log area comes to either. */
  predicate PairOk(c: Setup, s: State, j: nat) {
    j < |s.lh| && c.area.start + 1 + j < |s.store.disk| && s.lh[j] < |s.store.disk| && s.lh[j] != c.area.start + 1 + j
  }

  /** The commit can make its next write. */
  predicate CommitCan(c: Setup, s: State) {
    && s.phase.Committing? && s.lh != [] && !CommitPanics(s) && c.area.start < |s.store.disk|
    && var n, k := |s.lh|, s.phase.writes;
    && k < CommitWrites(s.lh) && (k < n ==> PairOk(c, s, k)) && (n < k <= 2 * n ==> PairOk(c, s, k - n - 1))
  }

  /** The next write of the commit, through the cache: write_log copies to the log block behind the
      header, whether it lies in the log area or not. */
  function CommitStore(c: Setup, s: State): Store
    requires CommitCan(c, s)
  {
    var a, n, k := c.area.start, |s.lh|, s.phase.writes;
    if k < n then s.store.Write(a + 1 + k, s.store.Read(s.lh[k]))
    else if k == n then s.store.Write(a, PutHead(s.store.Read(a), s.lh))
    else if k <= 2 * n then s.store.Write(s.lh[k - n - 1], s.store.Read(a + 1 + (k - n - 1)))
    else s.store.Write(a, PutHead(s.store.Read(a), []))
  }

  /** log_write behind its tests: the block is listed once, and pinned. */
  function AfterWrite(s: State, op: OpId, b: nat, data: Block): State
    requires op in s.running && b < |s.store.disk|
  {
    s.(store := s.store.Pin(b, data), lh := Absorb(s.lh, b), checked := s.checked - {op},
       running := s.running[op := s.running[op] + if b in s.lh then 0 else 1],
       cur := s.cur + [Write(op, b, data)],
       hist := s.hist[op := HistOf(s, op) + [Write(op, b, data)]])
  }

  /** end_op: the last operation out starts the commit, any other wakes the sleepers. */
  function AfterEnd(s: State, op: OpId): State {
    var r := s.running - {op};
    if r == map[] then s.(running := r, phase := Committing(s.store, 0)) else s.(running := r, sleeping := {})
  }

  /** The next disk write of the commit; the header write closes the group. */
  function AfterCommitWrite(c: Setup, s: State): State
    requires CommitCan(c, s)
  {
    var k := s.phase.writes + 1;
    var s1 := s.(store := CommitStore(c, s), phase := s.phase.(writes := k));
    if k == |s.lh| + 1 then s1.(groups := s.groups + [s.cur], cur := [], live := {}) else s1
  }

  function AfterCrash(s: State): State {
    s.(store := Store(s.store.disk, map[]), lh := [], running := map[], checked := map[], sleeping := {},
       phase := Recovering(s.store.disk, 0), cur := [], live := {})
  }

  /** The state after step t. end_op's test for log.committing is the predicate EndPanics. */
  ghost predicate Next(c: Setup, s: State, t: Step, s': State) {
    && Enabled(c, s, t)
    && match t
       case Begin(op) =>
         s' == s.(running := s.running[op := 0], hist := s.hist[op := []], live := s.live + {op})
       case Sleep(pid) => s' == s.(sleeping := s.sleeping + {pid})
       case Check(op, b) => s' == s.(checked := s.checked[op := b])
       case LogWrite(op, b, data) => s' == AfterWrite(s, op, b, data)
       case EndOp(op) => !EndPanics(s) && s' == AfterEnd(s, op)
       case CommitWrite => s' == AfterCommitWrite(c, s)
       case CommitDone => s' == s.(phase := Up, lh := [], sleeping := {}, live := {})
       case Crash => s' == AfterCrash(s)
       case RecoveryWrite =>
         s' == s.(store := s.store.(disk := RecoveryImage(s.phase.from, c.area, s.phase.replayed + 1)),
                  phase := s.phase.(replayed := s.phase.replayed + 1))
       case RecoveryDone => s' == s.(phase := Up)
  }

  function HistOf(s: State, op: OpId): seq<Write> {
    if op in s.hist then s.hist[op] else []
  }

  predicate EndPanics(s: State) { s.phase.Committing? }

  /** Outside of a commit, a caller of begin_op is admitted exactly if the list takes all that the running
      operations and the caller may add, and sleeps exactly if not. */
  lemma RefusedExactly(c: Setup, s: State, op: OpId, pid: nat)
    requires s.phase.Up? && op !in s.hist
    ensures Enabled(c, s, Begin(op)) <==> AllFit(|s.lh|, |s.running| + 1)
    ensures Enabled(c, s, Sleep(pid)) <==> !AllFit(|s.lh|, |s.running| + 1)
  {
    RoomMeans(|s.lh|, |s.running|);
    hide AllFit;
  }

  // ----- what the history means -----

  function Apply(d: Disk, ws: seq<Write>): (r: Disk)
    ensures |r| == |d|
  {
    if ws == [] then d
    else
      var e := Apply(d, ws[..|ws| - 1]);
      var w := ws[|ws| - 1];
      if w.block < |d| then e[w.block := w.data] else e
  }

  function ApplyGroups(d: Disk, gs: seq<seq<Write>>): (r: Disk)
    ensures |r| == |d|
  {
    if gs == [] then d else Apply(ApplyGroups(d, gs[..|gs| - 1]), gs[|gs| - 1])
  }

  function OfOp(ws: seq<Write>, op: OpId): seq<Write> {
    if ws == [] then []
    else OfOp(ws[..|ws| - 1], op) + if ws[|ws| - 1].op == op then [ws[|ws| - 1]] else []
  }

  /** The home blocks that all committed groups, in order, leave. */
  function Durable(c: Setup, s: State): Disk { ApplyGroups(c.disk0, s.groups) }

  // ----- invariants -----

  /** The list that is being committed fits the log area. */
  predicate Commitable(c: Setup, s: State) {
    s.phase.Committing? && Loggable(s.phase.base.disk, c.area, s.lh)
  }

  function CommitStep(c: Setup, s: State, k: nat): Disk
    requires Commitable(c, s) && k <= CommitWrites(s.lh)
  {
    CommitImage(s.phase.base.disk, c.area, s.lh, ReadAll(s.phase.base, s.lh), k)
  }

  /** What the commit then leaves after k writes. */
  ghost predicate Wrote(c: Setup, s: State, k: nat, store: Store) {
    && Commitable(c, s) && k <= CommitWrites(s.lh)
    && store == Store(CommitStep(c, s, k), PinnedAt(s.phase.base, s.lh, k))
  }

  /** The commit started with the listed blocks pinned, and no other. */
  ghost predicate AllListed(s: State)
    requires s.phase.Committing?
  {
    forall b :: b in s.phase.base.pinned <==> b in s.lh
  }

  /** The pinned blocks are the listed ones, and the cache shows the committed groups with the
      current writes on top. */
  ghost predicate CacheOk(c: Setup, store: Store, lh: seq<nat>, durable: Disk, cur: seq<Write>) {
    && |store.disk| == |c.disk0|
    && EmptyLogOf(store.disk, c.area, durable)
    && HomeBlocks(store.disk, c.area, lh)
    && (forall b :: b in store.pinned <==> b in lh)
    && HomeEq(View(store), Apply(durable, cur), c.area)
  }

  /** The group being installed is already among the durable ones. */
  ghost predicate CommittedOk(c: Setup, base: Store, lh: seq<nat>, durable: Disk) {
    && (forall b :: b in base.pinned <==> b in lh)
    && EmptyLogOf(base.disk, c.area, base.disk)
    && HomeEq(View(base), durable, c.area)
  }

  ghost predicate DiskOk(c: Setup, s: State) {
    match s.phase
    case Up => CacheOk(c, s.store, s.lh, Durable(c, s), s.cur)
    case Committing(base, k) =>
      && s.running == map[]
      && k <= CommitWrites(s.lh) && (s.lh == [] ==> k == 0)
      && |base.disk| == |c.disk0| && (k == 0 ==> s.store == base)
      && (k > 0 ==> Wrote(c, s, k, s.store))
      && (if k <= |s.lh| then CacheOk(c, base, s.lh, Durable(c, s), s.cur)
          else s.cur == [] && s.live == {} && CommittedOk(c, base, s.lh, Durable(c, s)))
    case Recovering(from, k) =>
      && s.running == map[] && s.sleeping == {} && s.lh == [] && s.cur == [] && s.live == {}
      && RecoversTo(from, c.area, Durable(c, s)) && |from| == |c.disk0|
      && k <= |Head(from, c.area)| + 1
      && s.store == Store(RecoveryImage(from, c.area, k), map[])
  }

  function Elems(h: seq<nat>): set<nat> { set b | b in h }

  /** The blocks still pinned after k writes of the commit. */
  function PinnedAt(base: Store, lh: seq<nat>, k: nat): map<nat, Block> {
    if k <= |lh| + 1 then base.pinned
    else if k <= 2 * |lh| + 1 then base.pinned - Elems(lh[..k - |lh| - 1])
    else base.pinned - Elems(lh)
  }

  /** Each operation's writes are all in one committed group, or all still in cur, or nowhere. */
  ghost predicate WholeOps(s: State) {
    && s.running.Keys <= s.live <= s.hist.Keys
    && (forall op {:trigger s.hist[op]} :: op in s.live ==> OfOp(s.cur, op) == s.hist[op])
    && (forall op :: op !in s.live ==> OfOp(s.cur, op) == [])
    && (forall op, g :: (op in s.live || op !in s.hist) && 0 <= g < |s.groups| ==> OfOp(s.groups[g], op) == [])
    && (forall op, g {:trigger OfOp(s.groups[g], op)} :: op in s.hist && 0 <= g < |s.groups| ==>
          OfOp(s.groups[g], op) == [] || OfOp(s.groups[g], op) == s.hist[op])
    && (forall op, g, g' :: 0 <= g < g' < |s.groups| ==>
          OfOp(s.groups[g], op) == [] || OfOp(s.groups[g'], op) == [])
  }

  /** Header entries that the running operations may still add. */
  ghost function Unused(m: map<OpId, nat>): int {
    if m == map[] then 0
    else var op :| op in m; MAXOPBLOCKS - m[op] + Unused(m - {op})
  }

  /** Reserved log space, and someone to wake every sleeper. */
  ghost predicate SpaceOk(s: State) {
    && (forall op :: op in s.running ==> s.running[op] <= MAXOPBLOCKS)
    && |s.lh| + Unused(s.running) <= LOGSIZE
    && (s.lh == [] ==> s.cur == [])
    && (s.phase.Up? && s.running == map[] ==> s.lh == [] && s.sleeping == {})
  }

  /** The entries that the header and the log area can both take. */
  function Capacity(c: Setup): int {
    if c.area.size - 1 < LOGSIZE then c.area.size - 1 else LOGSIZE
  }

  /** Every operation past log_write's test found the list below the capacity, and at most three
      operations run. */
  ghost predicate CheckOk(c: Setup, s: State) {
    && s.checked.Keys <= s.running.Keys && |s.running.Keys| <= 3
    && |s.lh| + |s.checked.Keys| <= Capacity(c) + 2
    && (Capacity(c) <= 0 ==> s.checked == map[] && s.lh == [])
    && (forall op :: op in s.checked ==> CheckedOk(c, s, op))
  }

  /** The block that op is about to append is a home block, and listed already or within op's share. */
  predicate CheckedOk(c: Setup, s: State, op: OpId)
    requires op in s.checked
  {
    && op in s.running && s.checked[op] < |s.store.disk| && !c.area.Contains(s.checked[op])
    && (s.checked[op] !in s.lh ==> s.running[op] < MAXOPBLOCKS)
  }

  /** The list names home blocks, each once. */
  ghost predicate ListOk(c: Setup, s: State) {
    NoDup(s.lh) && HomeBlocks(s.store.disk, c.area, s.lh)
  }

  /** Only listed blocks are pinned, all of them until the commit writes, and never those installed. */
  ghost predicate PinOk(s: State) {
    && s.store.pinned.Keys <= Elems(s.lh)
    && (s.phase.Up? || (s.phase.Committing? && s.phase.writes == 0) ==> Elems(s.lh) <= s.store.pinned.Keys)
    && (s.phase.Committing? ==>
          forall j :: 0 <= j < |s.lh| && j < s.phase.writes - |s.lh| - 1 ==> s.lh[j] !in s.store.pinned)
  }

  /** While a group commits no operation runs, and once it is durable nothing is current. */
  ghost predicate Quiet(s: State) {
    && (s.lh == [] ==> s.cur == [])
    && (s.phase.Committing? ==>
          && s.running == map[] && s.phase.writes <= CommitWrites(s.lh) && (s.lh == [] ==> s.phase.writes == 0)
          && (s.phase.writes > |s.lh| ==> s.cur == [] && s.live == {}))
    && (s.phase.Recovering? ==> s.running == map[] && s.lh == [] && s.sleeping == {})
  }

  /** What holds in every run, whatever the size of the log area. */
  ghost predicate Order(c: Setup, s: State) {
    Quiet(s) && WholeOps(s) && SpaceOk(s) && CheckOk(c, s) && ListOk(c, s) && PinOk(s)
  }

  /** The sizes of the log area for which every run is safe from crashes (SafeExactly). */
  predicate Safe(c: Setup) { c.area.size >= NBUF || c.area.size <= 1 }

  /** With another size: no commit writes a list that has outgrown the log area. */
  predicate Fits(c: Setup, s: State) {
    Safe(c) || (s.phase.Committing? ==> |s.lh| < c.area.size || CommitPanics(s))
  }

  ghost predicate Inv(c: Setup, s: State) {
    Order(c, s) && DiskOk(c, s)
  }

  // ----- every step keeps the invariant -----

  lemma InitInv(c: Setup, s: State)
    requires Init(c, s)
    ensures Inv(c, s)
  {
    InitOrder(c, s);
    hide Order;
    assert View(s.store) == c.disk0;
  }

  lemma InitOrder(c: Setup, s: State)
    requires Init(c, s)
    ensures Order(c, s)
  {
  }

  /** log_write adds its block on top of the cache's view. */
  lemma LogWriteDisk(c: Setup, s: State, t: Step, s': State)
    requires DiskOk(c, s) && t.LogWrite? && Next(c, s, t, s')
    ensures DiskOk(c, s')
  {
    assert s'.cur[..|s'.cur| - 1] == s.cur;
    assert View(s'.store) == View(s.store)[t.block := t.data];
  }

  /** A commit that writes has a list that fits the log area. */
  lemma CommitFits(c: Setup, s: State)
    requires DiskOk(c, s) && Fits(c, s) && (Capacity(c) <= 0 ==> s.lh == [])
    requires s.phase.Committing? && s.lh != [] && !CommitPanics(s)
    ensures Commitable(c, s)
  {
    hide CommitStep, PinnedAt, CommittedOk, ApplyGroups, Apply, View;
  }

  lemma CommitWriteDisk(c: Setup, s: State, t: Step, s': State)
    requires DiskOk(c, s) && Fits(c, s) && (Capacity(c) <= 0 ==> s.lh == []) && t.CommitWrite? && Next(c, s, t, s')
    ensures DiskOk(c, s')
  {
    hide DiskOk, Fits, PairOk, CommitStore, Wrote, AllListed;
    CommitFits(c, s);
    CommitPinned(c, s);
    CommitStoreIs(c, s);
    CommitMoves(c, s, s');
  }

  /** The next image of the commit keeps the invariant. */
  lemma CommitMoves(c: Setup, s: State, s': State)
    requires DiskOk(c, s) && CommitCan(c, s) && s' == AfterCommitWrite(c, s) && Wrote(c, s, s.phase.writes + 1, s'.store)
    ensures DiskOk(c, s')
  {
    hide PairOk, CommitPanics, CacheOk, CommittedOk, ApplyGroups, CommitStore, PinnedAt, CommitImage, Loggable;
    if s'.phase.writes == |s.lh| + 1 { HeaderWriteDisk(c, s, s'); }
  }

  lemma CommitPinned(c: Setup, s: State)
    requires DiskOk(c, s) && Commitable(c, s)
    ensures AllListed(s) && Wrote(c, s, s.phase.writes, s.store)
  {
    hide ApplyGroups, Apply, View;
  }

  /** For a list that fits, the writes through the cache are the images of a commit. */
  lemma CommitStoreIs(c: Setup, s: State)
    requires CommitCan(c, s) && AllListed(s) && Wrote(c, s, s.phase.writes, s.store)
    ensures Wrote(c, s, s.phase.writes + 1, CommitStore(c, s))
  {
    hide Wrote, AllListed, CommitStore, PairOk;
    var n, k := |s.lh|, s.phase.writes;
    if k < n { LogWritten(c, s); } else if n < k <= 2 * n { HomeWritten(c, s); } else { HeadWritten(c, s); }
  }

  lemma LogWritten(c: Setup, s: State)
    requires CommitCan(c, s) && AllListed(s) && Wrote(c, s, s.phase.writes, s.store) && s.phase.writes < |s.lh|
    ensures Wrote(c, s, s.phase.writes + 1, CommitStore(c, s))
  {
    var b := c.area.start + 1 + s.phase.writes;
    assert c.area.Contains(b) && b !in s.lh && s.lh[s.phase.writes] in s.phase.base.pinned;
    assert s.store.pinned - {b} == s.store.pinned;
  }

  lemma HeadWritten(c: Setup, s: State)
    requires CommitCan(c, s) && AllListed(s) && Wrote(c, s, s.phase.writes, s.store)
    requires s.phase.writes == |s.lh| || s.phase.writes == 2 * |s.lh| + 1
    ensures Wrote(c, s, s.phase.writes + 1, CommitStore(c, s))
  {
    hide CommitImage, CommitPanics, PutHead;
    var a, base := c.area.start, s.phase.base;
    HeadWrite(base.disk, c.area, s.lh, ReadAll(base, s.lh));
    assert c.area.Contains(a) && a !in s.lh;
    assert s.lh[..|s.lh|] == s.lh;
    assert a !in s.store.pinned && PinnedAt(base, s.lh, s.phase.writes + 1) == s.store.pinned;
    assert s.store.pinned - {a} == s.store.pinned;
    hide PinnedAt, Loggable;
  }

  lemma HomeWritten(c: Setup, s: State)
    requires CommitCan(c, s) && AllListed(s) && Wrote(c, s, s.phase.writes, s.store)
    requires |s.lh| < s.phase.writes <= 2 * |s.lh|
    ensures Wrote(c, s, s.phase.writes + 1, CommitStore(c, s))
  {
    hide CommitImage, CommitPanics;
    var base, j := s.phase.base, s.phase.writes - |s.lh| - 1;
    InstallWrite(base.disk, c.area, s.lh, ReadAll(base, s.lh), s.phase.writes);
    PinnedDrops(base, s.lh, s.phase.writes);
    assert c.area.Contains(c.area.start + 1 + j) && c.area.start + 1 + j !in base.pinned;
    assert PinnedAt(base, s.lh, s.phase.writes).Keys <= base.pinned.Keys;
    hide PinnedAt, Loggable;
  }

  /** Each block installed is pinned no longer. */
  lemma PinnedDrops(base: Store, h: seq<nat>, k: nat)
    requires |h| < k <= 2 * |h|
    ensures PinnedAt(base, h, k + 1) == PinnedAt(base, h, k) - {h[k - |h| - 1]}
  {
    var j := k - |h| - 1;
    assert h[..j + 1] == h[..j] + [h[j]];
  }

  /** The header write is the commit point: it moves the current writes into the groups. */
  lemma HeaderWriteDisk(c: Setup, s: State, s': State)
    requires DiskOk(c, s) && s.phase.Committing? && s.phase.writes == |s.lh|
    requires s'.groups == s.groups + [s.cur]
    ensures CommittedOk(c, s.phase.base, s.lh, Durable(c, s'))
  {
    assert s'.groups[..|s'.groups| - 1] == s.groups;
  }

  /** When commit returns, the disk holds the cache's view of the moment the group closed. */
  lemma CommitFinal(c: Setup, s: State)
    requires DiskOk(c, s) && Enabled(c, s, CommitDone)
    ensures EmptyLogOf(s.store.disk, c.area, View(s.phase.base)) && s.store.pinned == map[]
  {
    var base := s.phase.base;
    if s.lh == [] {
      assert View(base) == base.disk;
    } else {
      CommitEffect(base, c.area, s.lh);
    }
  }

  /** What the cache showed when the group closed is what the committed groups leave. */
  lemma CommitDoneView(c: Setup, s: State)
    requires DiskOk(c, s) && SpaceOk(s) && Enabled(c, s, CommitDone)
    ensures HomeEq(View(s.phase.base), Durable(c, s), c.area) && |s.store.disk| == |c.disk0| && s.cur == []
  {
    hide ApplyGroups, PinnedAt, View;
  }

  lemma CommitDoneDisk(c: Setup, s: State, s': State)
    requires DiskOk(c, s) && SpaceOk(s) && Next(c, s, CommitDone, s')
    ensures DiskOk(c, s')
  {
    CommitFinal(c, s);
    CommitDoneView(c, s);
    hide ApplyGroups, PinnedAt, DiskOk, SpaceOk, CommitStep;
    NothingPinned(c, s.store, View(s.phase.base), Durable(c, s'));
    UpOk(c, s');
  }

  lemma NothingPinned(c: Setup, store: Store, home: Disk, durable: Disk)
    requires EmptyLogOf(store.disk, c.area, home) && store.pinned == map[] && HomeEq(home, durable, c.area)
    requires |store.disk| == |c.disk0|
    ensures CacheOk(c, store, [], durable, [])
  {
    assert View(store) == store.disk;
  }

  lemma UpOk(c: Setup, s: State)
    requires s.phase.Up? && CacheOk(c, s.store, s.lh, Durable(c, s), s.cur)
    ensures DiskOk(c, s)
  {
  }

  lemma CrashDisk(c: Setup, s: State, t: Step, s': State)
    requires DiskOk(c, s) && t.Crash? && Next(c, s, t, s')
    ensures DiskOk(c, s')
  {
    Recovers(c, s);
  }

  lemma RecoveryDisk(c: Setup, s: State, t: Step, s': State)
    requires DiskOk(c, s) && (t.RecoveryWrite? || t.RecoveryDone?) && Next(c, s, t, s')
    ensures DiskOk(c, s')
  {
    if t.RecoveryDone? {
      RecoverIsInstall(s.phase.from, c.area);
      assert View(s'.store) == s'.store.disk;
    }
  }

  /** In every state that satisfies the invariant, whatever is lost in a crash now, recovery
      brings back exactly the committed groups. */
  lemma Recovers(c: Setup, s: State)
    requires DiskOk(c, s)
    ensures RecoversTo(s.store.disk, c.area, Durable(c, s))
  {
    match s.phase
    case Up => EmptyLogRecovers(s.store.disk, c.area);
    case Committing(base, k) =>
      if k == 0 {
        EmptyLogRecovers(s.store.disk, c.area);
      } else {
        CommitAtomic(base.disk, c.area, s.lh, ReadAll(base, s.lh), k);
        OverlayIsView(base, c.area, s.lh);
      }
    case Recovering(from, k) =>
      RecoveryIdempotent(from, c.area, k);
  }

  lemma OfOpSnoc(ws: seq<Write>, w: Write, op: OpId)
    ensures OfOp(ws + [w], op) == OfOp(ws, op) + if w.op == op then [w] else []
  {
    assert (ws + [w])[..|ws|] == ws;
  }

  lemma LoggedWhole(s: State, op: OpId, b: nat, data: Block)
    requires WholeOps(s) && op in s.running && b < |s.store.disk|
    ensures WholeOps(AfterWrite(s, op, b, data))
  {
    hide OfOp, Absorb;
    var s', w := AfterWrite(s, op, b, data), Write(op, b, data);
    forall o ensures OfOp(s'.cur, o) == OfOp(s.cur, o) + if op == o then [w] else [] {
      OfOpSnoc(s.cur, w, o);
    }
    assert op in s.live && op in s.hist && s'.hist[op] == s.hist[op] + [w];
    assert s'.running.Keys == s.running.Keys && s'.hist.Keys == s.hist.Keys && s'.groups == s.groups;
    forall o | o in s'.live ensures OfOp(s'.cur, o) == s'.hist[o] {
      assert s'.hist[o] == if o == op then s.hist[o] + [w] else s.hist[o];
    }
  }

  /** Closing a group: every live operation is in it with its whole history. */
  lemma GroupWhole(s: State, s': State)
    requires WholeOps(s) && s.running == map[]
    requires s'.groups == s.groups + [s.cur] && s'.cur == [] && s'.live == {}
    requires s'.hist == s.hist && s'.running == s.running
    ensures WholeOps(s')
  {
    assert forall g :: 0 <= g < |s'.groups| ==> s'.groups[g] == if g == |s.groups| then s.cur else s.groups[g];
  }

  /** Steps that touch no history, or that drop the current writes. */
  lemma SameWhole(s: State, s': State)
    requires WholeOps(s) && s'.groups == s.groups && s'.hist == s.hist && s'.running.Keys <= s.running.Keys
    requires (s'.cur == s.cur && s'.live == s.live) || (s'.cur == [] && s'.live == {} && s'.running == map[])
    ensures WholeOps(s')
  {
  }

  lemma BeginWhole(s: State, op: OpId, s': State)
    requires WholeOps(s) && op !in s.hist
    requires s' == s.(running := s.running[op := 0], hist := s.hist[op := []], live := s.live + {op})
    ensures WholeOps(s')
  {
  }

  lemma WholeStep(c: Setup, s: State, t: Step, s': State)
    requires WholeOps(s) && Quiet(s) && Next(c, s, t, s')
    ensures WholeOps(s')
  {
    match t {
      case Begin(op) => BeginWhole(s, op, s');
      case LogWrite(op, b, data) => LoggedWhole(s, op, b, data);
      case CommitWrite =>
        if s.phase.writes == |s.lh| { GroupWhole(s, s'); } else { SameWhole(s, s'); }
      case _ => SameWhole(s, s');
    }
  }

  lemma {:induction false} UnusedRemove(m: map<OpId, nat>, op: OpId)
    requires op in m
    ensures Unused(m) == MAXOPBLOCKS - m[op] + Unused(m - {op})
    decreases |m|
  {
    var o :| o in m && Unused(m) == MAXOPBLOCKS - m[o] + Unused(m - {o});
    if o != op {
      UnusedRemove(m - {o}, op);
      UnusedRemove(m - {op}, o);
      assert m - {o} - {op} == m - {op} - {o};
    }
  }

  lemma {:induction false} UnusedBounds(m: map<OpId, nat>)
    requires forall op :: op in m ==> m[op] <= MAXOPBLOCKS
    ensures 0 <= Unused(m) <= |m| * MAXOPBLOCKS
    ensures Unused(m) == 0 ==> forall op :: op in m ==> m[op] == MAXOPBLOCKS
    decreases |m|
  {
    if m != map[] {
      var op :| op in m;
      UnusedRemove(m, op);
      UnusedBounds(m - {op});
      assert |m - {op}| == |m| - 1;
      assert m == (m - {op})[op := m[op]];
    }
  }

  /** An entry more on the list is an entry less of the operation's share. */
  lemma SpaceLogged(s: State, op: OpId, b: nat, data: Block)
    requires SpaceOk(s) && op in s.running && b < |s.store.disk| && (b !in s.lh ==> s.running[op] < MAXOPBLOCKS)
    ensures SpaceOk(AfterWrite(s, op, b, data))
  {
    hide Unused;
    var s' := AfterWrite(s, op, b, data);
    UnusedRemove(s.running, op);
    UnusedRemove(s'.running, op);
    assert s'.running - {op} == s.running - {op};
  }

  lemma SpaceBegun(s: State, s': State, op: OpId)
    requires SpaceOk(s) && s.phase.Up? && op !in s.running && Room(|s.lh|, |s.running|)
    requires s'.running == s.running[op := 0] && s'.lh == s.lh && s'.cur == s.cur && s'.phase == s.phase
    ensures SpaceOk(s')
  {
    hide Unused;
    UnusedBounds(s.running);
    UnusedRemove(s'.running, op);
    assert s'.running - {op} == s.running;
  }

  lemma SpaceLeft(s: State, op: OpId)
    requires SpaceOk(s) && op in s.running
    ensures SpaceOk(AfterEnd(s, op))
  {
    hide Unused;
    UnusedRemove(s.running, op);
  }

  lemma SpaceStep(c: Setup, s: State, t: Step, s': State)
    requires WholeOps(s) && Quiet(s) && SpaceOk(s) && Next(c, s, t, s')
    ensures SpaceOk(s')
  {
    assert t.Begin? ==> t.op !in s.running;
    hide WholeOps, AfterWrite, AfterEnd, CommitStore;
    assert Unused(map[]) == 0;
    hide Unused;
    match t
    case Begin(op) => SpaceBegun(s, s', op);
    case LogWrite(op, b, data) => SpaceLogged(s, op, b, data);
    case EndOp(op) => SpaceLeft(s, op);
    case _ =>
  }

  lemma QuietStep(c: Setup, s: State, t: Step, s': State)
    requires Quiet(s) && SpaceOk(s) && Next(c, s, t, s')
    ensures Quiet(s')
  {
  }

  /** One more operation is past the test. */
  lemma CheckCounts(c: Setup, s: State, t: Step, s': State)
    requires CheckOk(c, s) && t.Check? && Next(c, s, t, s')
    ensures s'.checked.Keys <= s'.running.Keys && |s'.running.Keys| <= 3 && |s'.lh| + |s'.checked.Keys| <= Capacity(c) + 2
  {
    hide CheckedOk;
    assert s'.checked.Keys == s.checked.Keys + {t.op};
    SubsetAtMost(s'.checked.Keys, s.running.Keys);
  }

  /** One that was past it has appended its block. */
  lemma LogWriteCounts(c: Setup, s: State, op: OpId, b: nat, data: Block)
    requires CheckOk(c, s) && op in s.running && op in s.checked && b < |s.store.disk|
    ensures var s' := AfterWrite(s, op, b, data);
            && s'.checked.Keys == s.checked.Keys - {op} && s'.running.Keys == s.running.Keys
            && |s'.lh| + |s'.checked.Keys| <= |s.lh| + |s.checked.Keys|
  {
    hide CheckedOk;
  }

  /** The blocks that other operations are about to append stay within their promise. */
  lemma CheckedStay(c: Setup, s: State, t: Step, s': State)
    requires CheckOk(c, s) && (t.Check? || t.LogWrite?) && Next(c, s, t, s')
    ensures forall op :: op in s'.checked ==> CheckedOk(c, s', op)
  {
    forall op | op in s'.checked ensures CheckedOk(c, s', op) {
      if t.LogWrite? || op != t.op { assert CheckedOk(c, s, op); }
    }
  }

  lemma CheckStep(c: Setup, s: State, t: Step, s': State)
    requires CheckOk(c, s) && Quiet(s) && Next(c, s, t, s')
    ensures CheckOk(c, s')
  {
    if t.Check? || t.LogWrite? {
      if t.Check? { CheckCounts(c, s, t, s'); } else { LogWriteCounts(c, s, t.op, t.block, t.data); }
      CheckedStay(c, s, t, s');
      hide CheckedOk, AfterWrite;
    } else {
      CheckRest(c, s, t, s');
    }
  }

  lemma CheckRest(c: Setup, s: State, t: Step, s': State)
    requires CheckOk(c, s) && Quiet(s) && Next(c, s, t, s') && !t.Check? && !t.LogWrite?
    ensures CheckOk(c, s')
  {
    hide CheckedOk, CommitStore, RecoveryImage;
    if t.Begin? { CheckBegun(c, s, t.op, s'); }
    else if t.EndOp? { CheckEnded(c, s, t.op, s'); }
    else if t.Sleep? { CheckSlept(c, s, s'); }
    else if s.running == map[] {
      assert s.checked.Keys == {};
      assert s.checked == map[];
    }
  }

  lemma CheckSlept(c: Setup, s: State, s': State)
    requires CheckOk(c, s) && s'.running == s.running
    requires s'.checked == s.checked && s'.lh == s.lh && s'.store == s.store
    ensures CheckOk(c, s')
  {
    assert forall o :: o in s'.checked ==> CheckedOk(c, s, o);
  }

  lemma CheckBegun(c: Setup, s: State, op: OpId, s': State)
    requires CheckOk(c, s) && Room(|s.lh|, |s.running|) && s'.running == s.running[op := 0]
    requires s'.checked == s.checked && s'.lh == s.lh && s'.store == s.store
    ensures CheckOk(c, s')
  {
    assert s'.running.Keys == s.running.Keys + {op} && |s.running| == |s.running.Keys|;
    assert forall o :: o in s'.checked ==> CheckedOk(c, s, o);
  }

  lemma CheckEnded(c: Setup, s: State, op: OpId, s': State)
    requires CheckOk(c, s) && op !in s.checked && s'.running == s.running - {op}
    requires s'.checked == s.checked && s'.lh == s.lh && s'.store == s.store
    ensures CheckOk(c, s')
  {
    assert s'.running.Keys == s.running.Keys - {op};
    SubsetAtMost(s'.running.Keys, s.running.Keys);
    assert forall o :: o in s'.checked ==> CheckedOk(c, s, o);
  }

  /** No write of the commit pins a block, and each block installed is pinned no longer. */
  lemma PinWritten(c: Setup, s: State)
    requires PinOk(s) && CommitCan(c, s)
    ensures PinOk(AfterCommitWrite(c, s))
  {
    var s' := AfterCommitWrite(c, s);
    assert s'.store.pinned.Keys <= s.store.pinned.Keys;
    forall j | 0 <= j < |s.lh| && j < s'.phase.writes - |s.lh| - 1 ensures s.lh[j] !in s'.store.pinned {
      if j < s.phase.writes - |s.lh| - 1 { assert s.lh[j] !in s.store.pinned; }
    }
  }

  /** When it is through, none is pinned. */
  lemma PinDone(s: State)
    requires PinOk(s) && s.phase.Committing? && (s.lh == [] || s.phase.writes == CommitWrites(s.lh))
    ensures s.store.pinned.Keys == {}
  {
  }

  lemma PinLogged(s: State, op: OpId, b: nat, data: Block)
    requires PinOk(s) && s.phase.Up? && op in s.running && b < |s.store.disk|
    ensures PinOk(AfterWrite(s, op, b, data))
  {
    var s' := AfterWrite(s, op, b, data);
    assert Elems(s'.lh) == Elems(s.lh) + {b} && s'.store.pinned.Keys == s.store.pinned.Keys + {b};
  }

  lemma PinStep(c: Setup, s: State, t: Step, s': State)
    requires PinOk(s) && Quiet(s) && Next(c, s, t, s')
    ensures PinOk(s')
  {
    hide AfterCommitWrite, AfterWrite, CommitCan, RecoveryImage;
    match t
    case CommitWrite => PinWritten(c, s);
    case CommitDone => PinDone(s);
    case LogWrite(op, b, data) => PinLogged(s, op, b, data);
    case _ =>
  }

  /** The list grows by log_write alone, and never does the disk. */
  lemma ListStep(c: Setup, s: State, t: Step, s': State)
    requires ListOk(c, s) && Quiet(s) && Next(c, s, t, s')
    ensures ListOk(c, s')
  {
    hide PutHead;
  }

  lemma OrderStep(c: Setup, s: State, t: Step, s': State)
    requires Order(c, s) && Next(c, s, t, s')
    ensures Order(c, s')
  {
    hide Quiet, WholeOps, SpaceOk, CheckOk, ListOk, PinOk, Next;
    QuietStep(c, s, t, s');
    WholeStep(c, s, t, s');
    SpaceStep(c, s, t, s');
    CheckStep(c, s, t, s');
    ListStep(c, s, t, s');
    PinStep(c, s, t, s');
  }

  lemma DiskStep(c: Setup, s: State, t: Step, s': State)
    requires DiskOk(c, s) && SpaceOk(s) && Fits(c, s) && (Capacity(c) <= 0 ==> s.lh == []) && Next(c, s, t, s')
    ensures DiskOk(c, s')
  {
    hide DiskOk, SpaceOk, Fits, Next;
    match t {
      case LogWrite(_, _, _) => LogWriteDisk(c, s, t, s');
      case CommitWrite => CommitWriteDisk(c, s, t, s');
      case CommitDone => CommitDoneDisk(c, s, s');
      case Crash => CrashDisk(c, s, t, s');
      case RecoveryWrite => RecoveryDisk(c, s, t, s');
      case RecoveryDone => RecoveryDisk(c, s, t, s');
      case _ => DiskKept(c, s, t, s');
    }
  }

  /** The steps without disk writes and log_write; the last end_op remembers the cache it commits. */
  lemma DiskKept(c: Setup, s: State, t: Step, s': State)
    requires DiskOk(c, s) && Next(c, s, t, s') && (t.Begin? || t.Sleep? || t.Check? || t.EndOp?)
    ensures DiskOk(c, s')
  {
    hide ApplyGroups, CommittedOk, PinnedAt, CommitImage, RecoversTo, RecoveryImage, Loggable;
  }

  lemma StepInv(c: Setup, s: State, t: Step, s': State)
    requires Inv(c, s) && Fits(c, s) && Next(c, s, t, s')
    ensures Inv(c, s')
  {
    hide Next, DiskOk, Quiet, WholeOps, ListOk, PinOk, Fits;
    OrderStep(c, s, t, s');
    DiskStep(c, s, t, s');
  }

  // ----- whole runs -----

  /** ts[i] takes ss[i] to ss[i + 1]. */
  ghost predicate Steps(c: Setup, ss: seq<State>, ts: seq<Step>) {
    && |ss| == |ts| + 1
    && forall i :: 0 <= i < |ts| ==> Next(c, ss[i], ts[i], ss[i + 1])
  }

  ghost predicate Run(c: Setup, ss: seq<State>, ts: seq<Step>) {
    Steps(c, ss, ts) && Init(c, ss[0])
  }

  /** No commit of the run writes a list that has outgrown the log area: so in every run with a safe size,
      and with any size while log_write is called one at a time (SerialFits). */
  predicate Fitting(c: Setup, ss: seq<State>) {
    forall k :: 0 <= k < |ss| ==> Fits(c, ss[k])
  }

  lemma {:induction false} RunOrder(c: Setup, ss: seq<State>, ts: seq<Step>, i: nat)
    requires Run(c, ss, ts) && i < |ss|
    ensures Order(c, ss[i])
  {
    hide Order, Next, Init;
    if i == 0 { InitOrder(c, ss[0]); }
    else {
      RunOrder(c, ss, ts, i - 1);
      OrderStep(c, ss[i - 1], ts[i - 1], ss[i]);
    }
  }

  lemma {:induction false} RunInv(c: Setup, ss: seq<State>, ts: seq<Step>, i: nat)
    requires Run(c, ss, ts) && i < |ss| && Fitting(c, ss)
    ensures Inv(c, ss[i])
  {
    hide Inv, Next, Init, Fits;
    if i == 0 { InitInv(c, ss[0]); }
    else {
      RunInv(c, ss, ts, i - 1);
      StepInv(c, ss[i - 1], ts[i - 1], ss[i]);
    }
  }

  lemma {:induction false} GroupsGrow(c: Setup, ss: seq<State>, ts: seq<Step>, i: nat, j: nat)
    requires Steps(c, ss, ts) && i <= j < |ss|
    ensures ss[i].groups <= ss[j].groups
    decreases j
  {
    if i < j {
      GroupsGrow(c, ss, ts, i, j - 1);
      assert Next(c, ss[j - 1], ts[j - 1], ss[j]);
    }
  }

  /** Crash safety over every interleaving: at every point j of every run, recovery yields the
      committed groups in order; a group committed by point i is among them; and each
      operation is in them with all its writes or with none. */
  lemma CrashSafety(c: Setup, ss: seq<State>, ts: seq<Step>, i: nat, j: nat)
    requires Fitting(c, ss) && Run(c, ss, ts) && i <= j < |ss|
    ensures RecoversTo(ss[j].store.disk, c.area, ApplyGroups(c.disk0, ss[j].groups))
    ensures ss[i].groups <= ss[j].groups
    ensures forall op, g {:trigger OfOp(ss[j].groups[g], op)} :: 0 <= g < |ss[j].groups| && OfOp(ss[j].groups[g], op) != [] ==>
              && op in ss[j].hist && op !in ss[j].running
              && OfOp(ss[j].groups[g], op) == ss[j].hist[op]
              && forall g' :: 0 <= g' < |ss[j].groups| && g' != g ==> OfOp(ss[j].groups[g'], op) == []
  {
    RunInv(c, ss, ts, j);
    Recovers(c, ss[j]);
    GroupsGrow(c, ss, ts, i, j);
  }

  /** When end_op's commit returns, everything the cache showed when the last operation ended is
      durable: it is what the committed groups leave, now and after any later crash. */
  lemma CommitReturned(c: Setup, ss: seq<State>, ts: seq<Step>, i: nat, j: nat)
    requires Fitting(c, ss) && Run(c, ss, ts) && i < |ts| && ts[i] == CommitDone && i < j < |ss|
    ensures HomeEq(ApplyGroups(c.disk0, ss[i + 1].groups), View(ss[i].phase.base), c.area)
    ensures ss[i + 1].groups <= ss[j].groups
  {
    RunInv(c, ss, ts, i);
    RunInv(c, ss, ts, i + 1);
    assert Next(c, ss[i], ts[i], ss[i + 1]);
    CommitFinal(c, ss[i]);
    GroupsGrow(c, ss, ts, i + 1, j);
  }

  /** Operation op has ended. */
  ghost predicate Ended(s: State, op: OpId) { op in s.hist && op !in s.running }

  /** A committed group has all that op wrote. */
  ghost predicate Saved(s: State, op: OpId) {
    op in s.hist && (s.hist[op] == [] || exists g :: 0 <= g < |s.groups| && OfOp(s.groups[g], op) == s.hist[op])
  }

  /** A group only ever joins the end of the list. */
  lemma SavedGrows(s: State, s': State, op: OpId)
    requires Saved(s, op) && op in s'.hist && s'.hist[op] == s.hist[op] && s.groups <= s'.groups
    ensures Saved(s', op)
  {
    if s.hist[op] != [] {
      var g :| 0 <= g < |s.groups| && OfOp(s.groups[g], op) == s.hist[op];
      assert s'.groups[g] == s.groups[g];
    }
  }

  /** What has ended stays as it is; unless the machine crashes, it waits for the commit or is in it. */
  lemma EndedStep(c: Setup, s: State, t: Step, s': State, op: OpId)
    requires Order(c, s) && Next(c, s, t, s') && Ended(s, op)
    ensures Ended(s', op) && s'.hist[op] == s.hist[op] && s.groups <= s'.groups
    ensures Saved(s, op) ==> Saved(s', op)
    ensures t != Crash && op in s.live ==> op in s'.live || Saved(s', op)
    ensures t == CommitDone && (op in s.live || Saved(s, op)) ==> Saved(s', op)
  {
    hide SpaceOk, CheckOk, ListOk, PinOk, CommitStore, RecoveryImage;
    EndedKept(c, s, t, s', op);
    if Saved(s, op) { SavedGrows(s, s', op); }
    if t == CommitWrite && op in s.live && s'.groups != s.groups { GroupSaves(s, s', op); }
    if t == CommitDone && op in s.live { assert OfOp(s.cur, op) == s.hist[op]; }
    hide WholeOps, OfOp;
  }

  lemma EndedKept(c: Setup, s: State, t: Step, s': State, op: OpId)
    requires WholeOps(s) && Next(c, s, t, s') && Ended(s, op)
    ensures Ended(s', op) && s'.hist[op] == s.hist[op] && s.groups <= s'.groups
  {
    hide WholeOps, OfOp, CommitStore;
  }

  /** Closing the group saves every operation in it. */
  lemma GroupSaves(s: State, s': State, op: OpId)
    requires WholeOps(s) && op in s.live && s'.groups == s.groups + [s.cur] && s'.hist == s.hist
    ensures Saved(s', op)
  {
    assert s'.groups[|s.groups|] == s.cur && OfOp(s.cur, op) == s.hist[op];
  }

  lemma {:induction false} EndedRun(c: Setup, ss: seq<State>, ts: seq<Step>, e: nat, i: nat, op: OpId)
    requires Run(c, ss, ts) && e < i < |ss| && ts[e] == EndOp(op) && forall k :: e < k < i ==> ts[k] != Crash
    ensures Ended(ss[i], op) && op in ss[e].hist && ss[i].hist[op] == ss[e].hist[op]
    ensures op in ss[i].live || Saved(ss[i], op)
    decreases i
  {
    hide Order, Next, Saved, Init;
    RunOrder(c, ss, ts, i - 1);
    assert Next(c, ss[i - 1], ts[i - 1], ss[i]);
    if i == e + 1 {
      EndOpEnds(c, ss[e], op, ss[i]);
    } else {
      EndedRun(c, ss, ts, e, i - 1, op);
      EndedStep(c, ss[i - 1], ts[i - 1], ss[i], op);
    }
  }

  lemma EndOpEnds(c: Setup, s: State, op: OpId, s': State)
    requires Order(c, s) && Next(c, s, EndOp(op), s')
    ensures Ended(s', op) && op in s.hist && s'.hist[op] == s.hist[op] && op in s'.live
  {
    assert op in s.live && op in s.hist;
    hide Order;
  }

  lemma {:induction false} SavedRun(c: Setup, ss: seq<State>, ts: seq<Step>, i: nat, j: nat, op: OpId)
    requires Run(c, ss, ts) && i <= j < |ss| && Ended(ss[i], op) && Saved(ss[i], op)
    ensures Ended(ss[j], op) && Saved(ss[j], op) && ss[j].hist[op] == ss[i].hist[op]
    decreases j
  {
    hide Order, Next, Saved, Init;
    if i < j {
      SavedRun(c, ss, ts, i, j - 1, op);
      RunOrder(c, ss, ts, j - 1);
      assert Next(c, ss[j - 1], ts[j - 1], ss[j]);
      EndedStep(c, ss[j - 1], ts[j - 1], ss[j], op);
    }
  }

  /** Durability of an operation: if it ended before a commit returned, with no crash between, then from
      there on, whatever crashes come, a committed group has all that it wrote, and recovery brings the
      committed groups back. */
  lemma OperationDurable(c: Setup, ss: seq<State>, ts: seq<Step>, op: OpId, e: nat, i: nat, j: nat)
    requires Fitting(c, ss) && Run(c, ss, ts) && e < i < |ts| && i < j < |ss|
    requires ts[e] == EndOp(op) && ts[i] == CommitDone && forall k :: e < k < i ==> ts[k] != Crash
    ensures op in ss[e].hist && op in ss[j].hist && ss[j].hist[op] == ss[e].hist[op] && Saved(ss[j], op)
    ensures RecoversTo(ss[j].store.disk, c.area, ApplyGroups(c.disk0, ss[j].groups))
  {
    hide Order, Next, Saved, Init, Fits, RecoversTo;
    EndedRun(c, ss, ts, e, i, op);
    RunOrder(c, ss, ts, i);
    assert Next(c, ss[i], ts[i], ss[i + 1]);
    EndedStep(c, ss[i], ts[i], ss[i + 1], op);
    SavedRun(c, ss, ts, i + 1, j, op);
    CrashSafety(c, ss, ts, j, j);
  }

  lemma Extend(c: Setup, ss: seq<State>, ts: seq<Step>, t: Step, s': State)
    returns (ss': seq<State>, ts': seq<Step>)
    requires Steps(c, ss, ts) && Next(c, ss[|ss| - 1], t, s')
    ensures Steps(c, ss', ts') && ss'[0] == ss[0] && ss'[|ss'| - 1] == s'
    ensures ss' == ss + [s'] && ts' == ts + [t]
  {
    ss', ts' := ss + [s'], ts + [t];
  }

  // ----- progress -----

  /** A sleeper in begin_op always has an operation or a commit to wait for. */
  lemma SleeperHasWaker(c: Setup, s: State)
    requires Order(c, s) && s.sleeping != {}
    ensures s.phase.Committing? || s.running != map[]
  {
  }

  /** Entries on the list and on their way to it. */
  ghost function Listing(s: State): nat { |s.lh| + |s.checked.Keys| }

  /** A step towards waking: an operation leaves log_write or ends, or the commit advances. */
  lemma WakingStep(c: Setup, s: State) returns (t: Step, s': State)
    requires Inv(c, s) && Fits(c, s) && s.sleeping != {} && !CommitPanics(s)
    ensures Next(c, s, t, s') && (t.LogWrite? || t.EndOp? || t.CommitWrite? || t.CommitDone?)
    ensures Listing(s') <= Listing(s) && (s'.sleeping != {} ==> Nearer(s, s'))
  {
    hide DiskOk, WholeOps, SpaceOk, ListOk, PinOk, CheckOk;
    if s.phase.Committing? {
      t, s' := CommitAdvances(c, s);
    } else if s.checked != map[] {
      assert !s.phase.Recovering?;
      t, s' := LeaveLogWrite(c, s);
    } else {
      SleeperHasWaker(c, s);
      var op :| op in s.running;
      t, s' := EndOp(op), AfterEnd(s, op);
    }
  }

  /** An operation past the test can always append. */
  lemma LeaveLogWrite(c: Setup, s: State) returns (t: Step, s': State)
    requires Order(c, s) && !s.phase.Committing? && !s.phase.Recovering? && s.checked != map[]
    ensures Next(c, s, t, s') && t.LogWrite? && !s'.phase.Committing? && |s'.checked.Keys| < |s.checked.Keys|
    ensures Listing(s') <= Listing(s)
  {
    var op :| op in s.checked;
    assert CheckedOk(c, s, op);
    hide Order, Room;
    var data := seq(WORDS, i => 0);
    t, s' := LogWrite(op, s.checked[op], data), AfterWrite(s, op, s.checked[op], data);
    assert s'.checked.Keys == s.checked.Keys - {op};
  }

  /** The commit has started or advanced, or one operation fewer is inside log_write. */
  predicate Nearer(s: State, s': State) {
    if s.phase.Committing? then
      s'.phase.Committing? && s'.lh == s.lh && s'.phase.writes == s.phase.writes + 1 <= CommitWrites(s.lh)
    else s'.phase.Committing? || |s'.checked.Keys| < |s.checked.Keys|
  }

  /** A commit with a list that fits the log area finds every block it needs. */
  lemma CommitReady(c: Setup, s: State)
    requires Inv(c, s) && Fits(c, s) && s.phase.Committing? && s.lh != [] && s.phase.writes < CommitWrites(s.lh)
    requires !CommitPanics(s)
    ensures CommitCan(c, s)
  {
    hide Quiet, WholeOps, SpaceOk, PinOk, ListOk, DiskOk, Fits, PinnedAt, CommitImage;
    CommitFits(c, s);
    CommitPinned(c, s);
    hide CheckOk;
    InRange(c, s);
  }

  lemma InRange(c: Setup, s: State)
    requires ListOk(c, s) && s.phase.Committing? && Layout(s.store.disk, c.area) && |s.lh| < c.area.size
    ensures forall j: nat :: j < |s.lh| ==> PairOk(c, s, j)
  {
    forall j: nat | j < |s.lh| ensures PairOk(c, s, j) {
      assert c.area.Contains(c.area.start + 1 + j);
    }
  }

  lemma CommitAdvances(c: Setup, s: State) returns (t: Step, s': State)
    requires Inv(c, s) && Fits(c, s) && s.phase.Committing? && !CommitPanics(s)
    ensures Next(c, s, t, s') && (t.CommitWrite? || t.CommitDone?) && Listing(s') <= Listing(s)
    ensures s'.sleeping != {} ==> Nearer(s, s')
  {
    if s.lh == [] || s.phase.writes == CommitWrites(s.lh) {
      t, s' := CommitDone, s.(phase := Up, lh := [], sleeping := {}, live := {});
    } else {
      CommitReady(c, s);
      t, s' := CommitWrite, AfterCommitWrite(c, s);
    }
  }

  /** Letting the running operations finish log_write, one of them end, and the commit finish, wakes every
      sleeper, from any state: no sleeper in begin_op is lost, unless the commit panics for want of a buffer,
      which takes a list as long as the cache. */
  lemma {:induction false} SleepersWake(c: Setup, s: State) returns (ss: seq<State>, ts: seq<Step>)
    requires Inv(c, s) && (Safe(c) || Listing(s) < c.area.size)
    ensures Steps(c, ss, ts) && ss[0] == s && (ss[|ss| - 1].sleeping == {} || CommitPanics(ss[|ss| - 1]))
    ensures Listing(s) < NBUF ==> ss[|ss| - 1].sleeping == {}
    ensures forall t :: t in ts ==> t.LogWrite? || t.EndOp? || t.CommitWrite? || t.CommitDone?
    decreases s.sleeping != {}, !s.phase.Committing?,
      if s.phase.Committing? then CommitWrites(s.lh) - s.phase.writes else |s.checked.Keys|
  {
    hide Inv, Next;
    if s.sleeping == {} || CommitPanics(s) { return [s], []; }
    hide Steps, CommitPanics;
    var t, s' := WakingStep(c, s);
    StepInv(c, s, t, s');
    ss, ts := SleepersWake(c, s');
    Prepend(c, s, t, ss, ts);
    ss, ts := [s] + ss, [t] + ts;
  }

  lemma Prepend(c: Setup, s: State, t: Step, ss: seq<State>, ts: seq<Step>)
    requires Steps(c, ss, ts) && Next(c, s, t, ss[0])
    ensures Steps(c, [s] + ss, [t] + ts)
  {
    forall i | 0 <= i < |[t] + ts| ensures Next(c, ([s] + ss)[i], ([t] + ts)[i], ([s] + ss)[i + 1]) {
      if i > 0 { assert Next(c, ss[i - 1], ts[i - 1], ss[i]); }
    }
  }

  /** Steps towards waking. */
  predicate Progress(t: Step) { t.EndOp? || t.CommitWrite? || t.CommitDone? }

  function Advances(ts: seq<Step>): nat {
    if ts == [] then 0 else Advances(ts[..|ts| - 1]) + if Progress(ts[|ts| - 1]) then 1 else 0
  }

  /** Steps towards waking that a sleeper has still to wait for at most. */
  function Rank(s: State): int {
    if s.phase.Committing? then CommitWrites(s.lh) - s.phase.writes + 1 else 2 * LOGSIZE + 4
  }

  /** What a step can do that leaves a process asleep. */
  lemma SleepsOn(c: Setup, s: State, t: Step, s': State, pid: nat)
    requires Quiet(s) && Next(c, s, t, s') && pid in s.sleeping && pid in s'.sleeping
    ensures s.phase.Committing? ==> s'.phase.Committing? && s'.lh == s.lh && !t.EndOp? && !t.CommitDone?
    ensures s.phase.Committing? ==> s'.phase.writes == s.phase.writes + if t.CommitWrite? then 1 else 0
    ensures !s.phase.Committing? && Progress(t) ==> s'.phase.Committing?
    ensures !s.phase.Committing? ==> s'.phase.Up? || (t.EndOp? && s'.phase.Committing? && s'.phase.writes == 0)
  {
    hide AfterWrite, CommitStore, RecoveryImage, PairOk, CommitPanics, Room, LogWritePanics, Recoverable, Head;
    if t.LogWrite? { WritePhase(s, t.op, t.block, t.data); }
  }

  lemma WritePhase(s: State, op: OpId, b: nat, data: Block)
    requires op in s.running && b < |s.store.disk|
    ensures AfterWrite(s, op, b, data).phase == s.phase
  {
    hide Absorb;
  }

  lemma RankStep(c: Setup, s: State, t: Step, s': State, pid: nat)
    requires Order(c, s) && Next(c, s, t, s') && pid in s.sleeping && pid in s'.sleeping
    ensures 0 < Rank(s') <= Rank(s) - if Progress(t) then 1 else 0
  {
    hide Next, WholeOps, SpaceOk, CheckOk, ListOk, PinOk;
    OrderStep(c, s, t, s');
    SleepsOn(c, s, t, s', pid);
    RankBounds(c, s);
    RankBounds(c, s');
  }

  /** In every run, whatever else happens, a process sleeps in begin_op through fewer than 2 * LOGSIZE + 4
      ends of operations and commit steps: it wakes in every run that does not stop making them. */
  lemma {:induction false} WakesWithin(c: Setup, ss: seq<State>, ts: seq<Step>, i: nat, j: nat, pid: nat)
    requires Run(c, ss, ts) && i <= j < |ss| && forall k :: i <= k <= j ==> pid in ss[k].sleeping
    ensures Advances(ts[i..j]) + Rank(ss[j]) <= Rank(ss[i]) <= 2 * LOGSIZE + 4 && Advances(ts[i..j]) < 2 * LOGSIZE + 4
    decreases j
  {
    hide Order, Next, Init, Rank;
    RunOrder(c, ss, ts, i);
    RunOrder(c, ss, ts, j);
    RankBounds(c, ss[i]);
    RankBounds(c, ss[j]);
    if i < j {
      WakesWithin(c, ss, ts, i, j - 1, pid);
      RunOrder(c, ss, ts, j - 1);
      assert ts[i..j][..j - 1 - i] == ts[i..j - 1] && ts[i..j][j - 1 - i] == ts[j - 1];
      assert Next(c, ss[j - 1], ts[j - 1], ss[j]);
      RankStep(c, ss[j - 1], ts[j - 1], ss[j], pid);
    } else {
      assert ts[i..j] == [];
    }
  }

  lemma RankBounds(c: Setup, s: State)
    requires Order(c, s)
    ensures 0 < Rank(s) <= 2 * LOGSIZE + 4
    ensures s.phase.Committing? ==> Rank(s) < 2 * LOGSIZE + 4 && s.running == map[]
    ensures s.sleeping != {} ==> !s.phase.Recovering?
  {
    UnusedBounds(s.running);
  }
}
