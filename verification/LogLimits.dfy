/** How long the list of logged blocks can get.  log_write tests the length before it takes the lock, so
operations that pass the test together append one entry each, and for some sizes of the log area the list
outgrows it.  Then the commit panics if the list is as long as the cache; if it is shorter, write_log goes
on over home blocks, and a crash is not safe. */
module LogLimits {
  import opened Types
  import opened BlockStore
  import opened LogFormat
  import opened LogDevice
  import opened LogProtocol

  // ----- panics -----

  /** end_op never finds a commit in progress. */
  lemma EndNeverPanics(c: Setup, s: State, op: OpId)
    requires Order(c, s) && op in s.running
    ensures !EndPanics(s)
  {
  }

  /** The sizes of the log area that the list cannot outgrow (ListFits, ListOutgrows). */
  predicate Ample(c: Setup) { c.area.size > LOGSIZE || c.area.size <= 1 }

  /** log_write panics exactly when the list has reached the capacity.  In an ample log area it does not
      pass it; with more than LOGSIZE blocks every running operation has then added all its
      MAXOPBLOCKS entries, so an operation with entries left never panics. */
  lemma LogWritePanicsWhen(c: Setup, s: State, op: OpId)
    requires Order(c, s) && op in s.running
    ensures LogWritePanics(c, s) <==> |s.lh| >= Capacity(c)
    ensures Ample(c) ==> |s.lh| <= Capacity(c) || c.area.size == 0
    ensures c.area.size > LOGSIZE && LogWritePanics(c, s) ==> forall o :: o in s.running ==> s.running[o] == MAXOPBLOCKS
    ensures c.area.size > LOGSIZE && s.running[op] < MAXOPBLOCKS ==> !LogWritePanics(c, s)
  {
    UnusedBounds(s.running);
  }

  /** The longest list that log_write lets through: operations that pass the test together append
      one entry each. */
  function MaxList(c: Setup): int {
    if c.area.size <= 1 then 0 else if c.area.size + 1 < LOGSIZE then c.area.size + 1 else LOGSIZE
  }

  /** In every run, for every size of the log area, the list is no longer than that. */
  lemma ListBounded(c: Setup, ss: seq<State>, ts: seq<Step>, i: nat)
    requires Run(c, ss, ts) && i < |ss|
    ensures |ss[i].lh| <= MaxList(c)
  {
    RunOrder(c, ss, ts, i);
    UnusedBounds(ss[i].running);
  }

  /** With an ample size the list fits the log area in every run. */
  lemma ListFits(c: Setup, ss: seq<State>, ts: seq<Step>, i: nat)
    requires Run(c, ss, ts) && i < |ss| && Ample(c)
    ensures |ss[i].lh| < c.area.size
  {
    ListBounded(c, ss, ts, i);
    assert Init(c, ss[0]);
  }

  /** While at most one operation at a time is between log_write's test and its lock, the list fits the
      log area, whatever its size. */
  lemma {:induction false} SerialFits(c: Setup, ss: seq<State>, ts: seq<Step>, i: nat)
    requires Run(c, ss, ts) && i < |ss| && forall k :: 0 <= k < |ss| ==> |ss[k].checked.Keys| <= 1
    ensures Fits(c, ss[i]) && (c.area.size > 1 ==> |ss[i].lh| + |ss[i].checked.Keys| <= Capacity(c))
  {
    hide Next, CheckOk;
    if i > 0 && c.area.size > 1 {
      SerialFits(c, ss, ts, i - 1);
      RunOrder(c, ss, ts, i - 1);
      assert Next(c, ss[i - 1], ts[i - 1], ss[i]);
      assert CheckOk(c, ss[i - 1]);
      SerialStep(c, ss[i - 1], ts[i - 1], ss[i]);
    }
  }

  lemma SerialStep(c: Setup, s: State, t: Step, s': State)
    requires CheckOk(c, s) && c.area.size > 1 && |s.checked.Keys| <= 1 && |s'.checked.Keys| <= 1 && Next(c, s, t, s')
    requires |s.lh| + |s.checked.Keys| <= Capacity(c)
    ensures |s'.lh| + |s'.checked.Keys| <= Capacity(c)
  {
    hide CheckOk, AfterWrite, CommitStore, RecoveryImage;
    if t.LogWrite? { LogWriteCounts(c, s, t.op, t.block, t.data); }
  }

  // ----- runs to a long list -----

  /** A setup with room for LOGSIZE distinct home blocks behind the log. */
  predicate Roomy(c: Setup) {
    EmptyLogOf(c.disk0, c.area, c.disk0) && |c.disk0| >= c.area.start + c.area.size + LOGSIZE
  }

  /** Operations 0, 1 and 2 are running, nothing is committed, and the first k blocks behind the log
      are logged with `data`. */
  ghost predicate Row(c: Setup, s: State, k: nat, data: Block) {
    && k <= LOGSIZE && s.phase.Up? && s.store.disk == c.disk0 && s.groups == []
    && |s.lh| == k && (forall i :: 0 <= i < k ==> s.lh[i] == c.area.start + c.area.size + i)
    && (forall i :: 0 <= i < k ==> s.lh[i] in s.store.pinned && s.store.pinned[s.lh[i]] == data)
    && s.running.Keys == {0, 1, 2}
  }

  lemma RowDistinct(c: Setup, s: State, k: nat, data: Block)
    requires Row(c, s, k, data)
    ensures NoDup(s.lh) && (k > 0 ==> c.area.start + c.area.size in s.lh)
  {
    assert k > 0 ==> s.lh[0] == c.area.start + c.area.size;
  }

  /** Block i behind the log. */
  function Behind(c: Setup, i: nat): nat { c.area.start + c.area.size + i }

  lemma Checked(c: Setup, s: State, k: nat, data: Block, op: OpId, i: nat) returns (s': State)
    requires Roomy(c) && Row(c, s, k, data) && k < Capacity(c) && i < LOGSIZE
    requires op in s.running && op !in s.checked && s.running[op] < MAXOPBLOCKS
    ensures Next(c, s, Check(op, Behind(c, i)), s') && Row(c, s', k, data)
    ensures s'.running == s.running && s'.checked == s.checked[op := Behind(c, i)]
  {
    s' := s.(checked := s.checked[op := Behind(c, i)]);
  }

  lemma Appended(c: Setup, s: State, k: nat, data: Block, op: OpId) returns (s': State)
    requires Roomy(c) && Row(c, s, k, data) && k < LOGSIZE && op in s.running && s.running[op] < MAXOPBLOCKS
    requires op in s.checked && s.checked[op] == Behind(c, k)
    ensures Next(c, s, LogWrite(op, Behind(c, k), data), s') && Row(c, s', k + 1, data)
    ensures s'.running == s.running[op := s.running[op] + 1] && s'.checked == s.checked - {op}
  {
    assert Behind(c, k) !in s.lh;
    s' := AfterWrite(s, op, Behind(c, k), data);
    assert s'.running.Keys == s.running.Keys;
  }

  /** Entries of the three operations after k writes, the first taking x, the others y each in turn. */
  function Shares(k: nat, x: nat, y: nat): map<OpId, nat>
    requires k <= x + 2 * y
  {
    if k <= x then map[0 := k, 1 := 0, 2 := 0]
    else if k <= x + y then map[0 := x, 1 := k - x, 2 := 0]
    else map[0 := x, 1 := y, 2 := k - x - y]
  }

  ghost predicate Filling(c: Setup, s: State, k: nat, data: Block, x: nat, y: nat) {
    && x <= MAXOPBLOCKS && y <= MAXOPBLOCKS && k <= x + 2 * y
    && Row(c, s, k, data) && s.checked == map[] && s.running == Shares(k, x, y)
  }

  lemma BeginThree(c: Setup, data: Block, x: nat, y: nat) returns (ss: seq<State>, ts: seq<Step>)
    requires Roomy(c) && x <= MAXOPBLOCKS && y <= MAXOPBLOCKS
    ensures Run(c, ss, ts) && Filling(c, ss[|ss| - 1], 0, data, x, y)
  {
    var s0 := State(Store(c.disk0, map[]), [], map[], map[], {}, Up, [], [], map[], {});
    var s1 := Begun(c, s0, 0);
    var s2 := Begun(c, s1, 1);
    var s3 := Begun(c, s2, 2);
    assert s3.running == map[0 := 0, 1 := 0, 2 := 0];
    ss, ts := [s0, s1, s2, s3], [Begin(0), Begin(1), Begin(2)];
    hide Next;
    assert Run(c, ss, ts);
  }

  /** An operation begins while there is room. */
  lemma Begun(c: Setup, s: State, op: OpId) returns (s': State)
    requires s.phase.Up? && Room(|s.lh|, |s.running|) && op !in s.hist && op !in s.running
    ensures Next(c, s, Begin(op), s')
    ensures s' == s.(running := s.running[op := 0], hist := s.hist[op := []], live := s.live + {op})
    ensures |s'.running| == |s.running| + 1
  {
    s' := s.(running := s.running[op := 0], hist := s.hist[op := []], live := s.live + {op});
    assert s'.running.Keys == s.running.Keys + {op};
    assert |s'.running| == |s'.running.Keys| && |s.running| == |s.running.Keys|;
  }

  /** One operation logs one more block: the test, and then the append. */
  lemma FillStep(c: Setup, ss: seq<State>, ts: seq<Step>, k: nat, data: Block, x: nat, y: nat)
    returns (ss': seq<State>, ts': seq<Step>)
    requires Roomy(c) && Run(c, ss, ts) && Filling(c, ss[|ss| - 1], k, data, x, y) && k < Capacity(c) && k < x + 2 * y
    ensures Run(c, ss', ts') && Filling(c, ss'[|ss'| - 1], k + 1, data, x, y)
  {
    hide Next, Init;
    var s, op := ss[|ss| - 1], if k < x then 0 else if k < x + y then 1 else 2;
    var s1 := Checked(c, s, k, data, op, k);
    var s2 := Appended(c, s1, k, data, op);
    assert s2.running == Shares(k + 1, x, y);
    assert s2.checked == map[];
    ss', ts' := Extend(c, ss, ts, Check(op, Behind(c, k)), s1);
    ss', ts' := Extend(c, ss', ts', LogWrite(op, Behind(c, k), data), s2);
  }

  /** The three operations fill the list to n entries. */
  lemma FillTo(c: Setup, n: nat, data: Block, x: nat, y: nat) returns (ss: seq<State>, ts: seq<Step>)
    requires Roomy(c) && x <= MAXOPBLOCKS && y <= MAXOPBLOCKS && n <= Capacity(c) && n <= x + 2 * y
    ensures Run(c, ss, ts) && Filling(c, ss[|ss| - 1], n, data, x, y)
  {
    ss, ts := BeginThree(c, data, x, y);
    var k := 0;
    hide Filling, Run;
    while k < n
      invariant k <= n && Run(c, ss, ts) && Filling(c, ss[|ss| - 1], k, data, x, y)
    {
      ss, ts := FillStep(c, ss, ts, k, data, x, y);
      k := k + 1;
    }
  }

  /** The panic is reachable although no operation exceeds its share: three operations fill the list,
      and then even a block that is already listed cannot be logged again.  When it is reached, some
      operation still has entries left exactly if the log area has LOGSIZE blocks or fewer; the file
      systems that mkfs makes have exactly LOGSIZE. */
  lemma FullLogReachable(c: Setup, data: Block) returns (ss: seq<State>, ts: seq<Step>)
    requires Roomy(c)
    ensures Run(c, ss, ts)
    ensures var s := ss[|ss| - 1];
      && LogWritePanics(c, s) && s.running.Keys == {0, 1, 2} && s.phase.Up? && |s.lh| == Capacity(c) && NoDup(s.lh)
      && (c.area.size > 1 ==> c.area.start + c.area.size in s.lh)
      && ((exists op :: op in s.running && s.running[op] < MAXOPBLOCKS) <==> c.area.size <= LOGSIZE)
  {
    ss, ts := FillTo(c, Capacity(c), data, MAXOPBLOCKS, MAXOPBLOCKS);
    var s := ss[|ss| - 1];
    RowDistinct(c, s, Capacity(c), data);
    assert c.area.size <= LOGSIZE ==> s.running[2] < MAXOPBLOCKS;
  }

  /** The operations of ops are past the test, each with the next block behind the log from i on. */
  ghost predicate InLine(c: Setup, s: State, ops: seq<OpId>, i: nat) {
    forall j :: 0 <= j < |ops| ==>
      ops[j] in s.running && s.running[ops[j]] < MAXOPBLOCKS && ops[j] in s.checked && s.checked[ops[j]] == Behind(c, i + j)
  }

  /** Two operations pass the test one after the other, before either of them takes the lock. */
  lemma CheckTwo(c: Setup, ss: seq<State>, ts: seq<Step>, k: nat, data: Block, p: OpId, q: OpId, i: nat)
    returns (ss': seq<State>, ts': seq<Step>)
    requires Roomy(c) && Run(c, ss, ts) && Row(c, ss[|ss| - 1], k, data) && k < Capacity(c) && i + 1 < LOGSIZE && p != q
    requires var s := ss[|ss| - 1];
      && p in s.running && q in s.running && s.running[p] < MAXOPBLOCKS && s.running[q] < MAXOPBLOCKS
      && p !in s.checked && q !in s.checked
    ensures Run(c, ss', ts') && Row(c, ss'[|ss'| - 1], k, data) && ss'[|ss'| - 1].running == ss[|ss| - 1].running
    ensures ss'[|ss'| - 1].checked == ss[|ss| - 1].checked[p := Behind(c, i)][q := Behind(c, i + 1)]
  {
    hide Next, Init, Row;
    var s1 := Checked(c, ss[|ss| - 1], k, data, p, i);
    var s2 := Checked(c, s1, k, data, q, i + 1);
    ss', ts' := Extend(c, ss, ts, Check(p, Behind(c, i)), s1);
    ss', ts' := Extend(c, ss', ts', Check(q, Behind(c, i + 1)), s2);
  }

  /** They then append one entry each, whatever the length of the list is by then. */
  lemma {:induction false} AppendAll(c: Setup, ss: seq<State>, ts: seq<Step>, k: nat, data: Block, ops: seq<OpId>)
    returns (ss': seq<State>, ts': seq<Step>)
    requires Roomy(c) && Run(c, ss, ts) && Row(c, ss[|ss| - 1], k, data) && k + |ops| <= LOGSIZE
    requires NoDup(ops) && InLine(c, ss[|ss| - 1], ops, k)
    ensures Run(c, ss', ts') && Row(c, ss'[|ss'| - 1], k + |ops|, data)
    ensures ss'[|ss'| - 1].checked.Keys == ss[|ss| - 1].checked.Keys - (set op | op in ops)
    decreases |ops|
  {
    hide Next, Init, Row;
    if ops == [] { return ss, ts; }
    var s, rest := ss[|ss| - 1], ops[1..];
    var s1 := Appended(c, s, k, data, ops[0]);
    ss', ts' := Extend(c, ss, ts, LogWrite(ops[0], Behind(c, k), data), s1);
    assert ops == [ops[0]] + rest;
    assert InLine(c, s1, rest, k + 1);
    ss', ts' := AppendAll(c, ss', ts', k + 1, data, rest);
  }

  /** Two operations pass the test together when the list is one entry below the capacity. */
  lemma OneTooMany(c: Setup, data: Block) returns (ss: seq<State>, ts: seq<Step>)
    requires Roomy(c) && 1 < c.area.size <= LOGSIZE
    ensures Run(c, ss, ts) && Row(c, ss[|ss| - 1], c.area.size, data) && ss[|ss| - 1].checked == map[]
  {
    var k := c.area.size - 2;
    ss, ts := FillTo(c, k, data, MAXOPBLOCKS, MAXOPBLOCKS - 1);
    ss, ts := CheckTwo(c, ss, ts, k, data, 1, 2, k);
    ss, ts := AppendAll(c, ss, ts, k, data, [1, 2]);
    assert ss[|ss| - 1].checked.Keys == {};
  }

  /** Three do, where each has an entry left. */
  lemma LongestByThree(c: Setup, data: Block) returns (ss: seq<State>, ts: seq<Step>)
    requires Roomy(c) && 1 < c.area.size < LOGSIZE
    ensures Run(c, ss, ts) && Row(c, ss[|ss| - 1], c.area.size + 1, data) && ss[|ss| - 1].checked == map[]
  {
    var k, y := c.area.size - 2, MAXOPBLOCKS - 1;
    ss, ts := FillTo(c, k, data, y, y);
    var s1 := Checked(c, ss[|ss| - 1], k, data, 0, k);
    ss, ts := Extend(c, ss, ts, Check(0, Behind(c, k)), s1);
    ss, ts := CheckTwo(c, ss, ts, k, data, 1, 2, k + 1);
    ss, ts := AppendAll(c, ss, ts, k, data, [0, 1, 2]);
    assert ss[|ss| - 1].checked.Keys == {};
  }

  /** A run to the longest list. */
  lemma LongestList(c: Setup, data: Block) returns (ss: seq<State>, ts: seq<Step>)
    requires Roomy(c)
    ensures Run(c, ss, ts) && Row(c, ss[|ss| - 1], MaxList(c), data) && ss[|ss| - 1].checked == map[]
  {
    hide Run;
    if c.area.size <= 1 || c.area.size > LOGSIZE {
      ss, ts := FillTo(c, Capacity(c), data, MAXOPBLOCKS, MAXOPBLOCKS);
    } else if c.area.size == LOGSIZE {
      ss, ts := OneTooMany(c, data);
    } else {
      ss, ts := LongestByThree(c, data);
    }
  }

  /** With any other size a run lets the list outgrow the log area: the block that write_log takes for
      the log block of entry area.size - 1 is a home block, and one of the logged ones. */
  lemma ListOutgrows(c: Setup, data: Block) returns (ss: seq<State>, ts: seq<Step>)
    requires Roomy(c) && !Ample(c)
    ensures Run(c, ss, ts) && |ss[|ss| - 1].lh| >= c.area.size
    ensures !c.area.Contains(c.area.start + c.area.size) && c.area.start + c.area.size in ss[|ss| - 1].lh
  {
    ss, ts := LongestList(c, data);
    RowDistinct(c, ss[|ss| - 1], MaxList(c), data);
  }

  /** The three operations end, and the last one out starts the commit. */
  lemma EndAll(c: Setup, ss: seq<State>, ts: seq<Step>) returns (ss': seq<State>, ts': seq<Step>)
    requires Run(c, ss, ts) && ss[|ss| - 1].checked == map[]
    requires ss[|ss| - 1].phase.Up? && ss[|ss| - 1].running.Keys == {0, 1, 2}
    ensures Run(c, ss', ts')
    ensures var s, s' := ss[|ss| - 1], ss'[|ss'| - 1];
      s'.phase == Committing(s.store, 0) && s'.store == s.store && s'.lh == s.lh && s'.groups == s.groups
  {
    var s := ss[|ss| - 1];
    var s1 := AfterEnd(s, 0);
    assert 1 in s.running - {0} && 2 in s.running - {0} - {1};
    var s2 := AfterEnd(s1, 1);
    var s' := AfterEnd(s2, 2);
    assert (s2.running - {2}).Keys == {};
    assert s2.running - {2} == map[];
    assert Next(c, s, EndOp(0), s1) && Next(c, s1, EndOp(1), s2) && Next(c, s2, EndOp(2), s');
    hide Next;
    ss', ts' := Extend(c, ss, ts, EndOp(0), s1);
    ss', ts' := Extend(c, ss', ts', EndOp(1), s2);
    ss', ts' := Extend(c, ss', ts', EndOp(2), s');
  }

  // ----- writing an outgrown list -----

  /** write_log has copied k of the area.size blocks behind the log, all with `data`.  The last copy
      goes to the first of them, which is then pinned no longer. */
  ghost predicate Copying(c: Setup, s: State, k: nat, data: Block) {
    && s.phase.Committing? && s.phase.writes == k <= c.area.size == |s.lh| && s.groups == []
    && (forall i :: 0 <= i < |s.lh| ==> s.lh[i] == Behind(c, i))
    && (forall i :: 0 <= i < |s.lh| && (k < c.area.size || i > 0) ==>
          s.lh[i] in s.store.pinned && s.store.pinned[s.lh[i]] == data)
    && |s.store.disk| == |c.disk0|
    && forall b :: 0 <= b < |c.disk0| ==>
         s.store.disk[b] == if c.area.start < b <= c.area.start + k then data else c.disk0[b]
  }

  lemma CopyStep(c: Setup, s: State, k: nat, data: Block) returns (s': State)
    requires Roomy(c) && 1 < c.area.size < NBUF && Copying(c, s, k, data) && k < c.area.size
    ensures Next(c, s, CommitWrite, s') && Copying(c, s', k + 1, data)
  {
    assert s.lh[k] == Behind(c, k) && s.store.Read(s.lh[k]) == data;
    assert PairOk(c, s, k);
    s' := AfterCommitWrite(c, s);
    assert s'.store == s.store.Write(c.area.start + 1 + k, data);
  }

  lemma CopyAll(c: Setup, ss0: seq<State>, ts0: seq<Step>, data: Block) returns (ss: seq<State>, ts: seq<Step>)
    requires Roomy(c) && 1 < c.area.size < NBUF && Run(c, ss0, ts0) && Copying(c, ss0[|ss0| - 1], 0, data)
    ensures Run(c, ss, ts) && Copying(c, ss[|ss| - 1], c.area.size, data)
  {
    hide Next, Init, Copying;
    ss, ts := ss0, ts0;
    var k := 0;
    while k < c.area.size
      invariant k <= c.area.size && Run(c, ss, ts) && Copying(c, ss[|ss| - 1], k, data)
    {
      var s' := CopyStep(c, ss[|ss| - 1], k, data);
      ss, ts := Extend(c, ss, ts, CommitWrite, s');
      k := k + 1;
    }
  }

  /** With 2 to NBUF - 1 log blocks a crash is not safe: nothing is committed, and yet, once write_log has
      copied area.size entries, recovery shows a block of the uncommitted group. */
  lemma OutgrownTears(c: Setup, data: Block) returns (ss: seq<State>, ts: seq<Step>)
    requires Roomy(c) && !Safe(c) && data != c.disk0[c.area.start + c.area.size]
    ensures Run(c, ss, ts)
    ensures var s := ss[|ss| - 1];
      && s.phase.Committing? && s.phase.writes == |s.lh| == c.area.size && s.groups == []
      && Recoverable(s.store.disk, c.area) && !HomeEq(Recover(s.store.disk, c.area), c.disk0, c.area)
  {
    ss, ts := OneTooMany(c, data);
    ss, ts := EndAll(c, ss, ts);
    ss, ts := CopyAll(c, ss, ts, data);
    var d, b := ss[|ss| - 1].store.disk, c.area.start + c.area.size;
    hide Run, Roomy;
    EmptyLogRecovers(d, c.area);
    assert d[b] != c.disk0[b] && !c.area.Contains(b);
  }

  /** Recovery of the disk brings back the committed groups. */
  ghost predicate CrashSafe(c: Setup, s: State) {
    RecoversTo(s.store.disk, c.area, Durable(c, s))
  }

  lemma UnsafeRun(c: Setup) returns (ss: seq<State>, ts: seq<Step>)
    requires Roomy(c) && !Safe(c)
    ensures Run(c, ss, ts) && |ss| > 0 && !CrashSafe(c, ss[|ss| - 1])
  {
    var home := c.disk0[c.area.start + c.area.size];
    var data := home[0 := home[0] + 1];
    assert data[0] != home[0];
    ss, ts := OutgrownTears(c, data);
  }

  /** Crash safety of every run, at every point, holds exactly for the safe sizes of the log area. */
  lemma SafeExactly(c: Setup)
    requires Roomy(c)
    ensures Safe(c) <==> forall ss, ts, j: nat :: Run(c, ss, ts) && j < |ss| ==> CrashSafe(c, ss[j])
  {
    hide Run, RecoversTo, Roomy;
    if Safe(c) {
      forall ss, ts, j: nat | Run(c, ss, ts) && j < |ss| ensures CrashSafe(c, ss[j]) {
        CrashSafety(c, ss, ts, j, j);
      }
    } else {
      var ss, ts := UnsafeRun(c);
      var j := |ss| - 1;
      assert Run(c, ss, ts) && !CrashSafe(c, ss[j]);
    }
  }
}
