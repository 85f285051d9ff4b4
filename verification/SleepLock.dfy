/** sleep and wakeup (proc.c) with the sleep lock built on them (sleeplock.c), as a transition
system over any number of processes.  The spinlock lk of the sleep lock and ptable.lock are
separate, and every acquire, release, test and assignment is a step of its own. */
module SleepLock {
  import opened Types

  type Pid = nat

  /** Where a process is. The comment names the lock(s) it holds. */
  datatype Pc =
    | Idle            // outside
    | AcqWant         // acquiresleep: before acquire(&lk->lk)
    | AcqTest         // lk: at the while test
    | SleepTable      // lk: in sleep, before acquire(&ptable.lock)
    | SleepRelease    // lk, ptable: before release(lk)
    | SleepMark       // ptable: before state = SLEEPING
    | SleepSched      // ptable: SLEEPING, in sched
    | Asleep          // SLEEPING, switched away
    | Woken           // RUNNABLE, not yet running again
    | SleepTidy       // ptable: back from sched
    | SleepReacquire  // before acquire(lk)
    | AcqRelease      // lk: locked is set, before release
    | Holding         // owns the sleep lock
    | RelWant         // releasesleep: before acquire(&lk->lk)
    | RelClear        // lk: before locked = 0
    | RelWake         // lk: in wakeup, before acquire(&ptable.lock)
    | RelScan         // lk, ptable: before wakeup1
    | RelTable        // lk, ptable: before release(&ptable.lock)
    | RelUnlock       // lk: before release(&lk->lk)
    | Table           // ptable: some other holder, for instance kill

  datatype State = State(lk: Option<Pid>, ptable: Option<Pid>, locked: bool, owner: Pid, pc: map<Pid, Pc>)

  predicate HoldsLk(c: Pc) {
    c.AcqTest? || c.SleepTable? || c.SleepRelease? || c.AcqRelease? || c.RelClear? || c.RelWake? || c.RelScan? ||
    c.RelTable? || c.RelUnlock?
  }

  predicate HoldsTable(c: Pc) {
    c.SleepRelease? || c.SleepMark? || c.SleepSched? || c.SleepTidy? || c.RelScan? || c.RelTable? || c.Table?
  }

  /** Owns the sleep lock: from the assignment locked = 1 until locked = 0. */
  predicate Owns(c: Pc) {
    c.AcqRelease? || c.Holding? || c.RelWant? || c.RelClear?
  }

  /** Has seen locked set and is going to sleep or sleeping. */
  predicate Sleeps(c: Pc) {
    c.SleepTable? || c.SleepRelease? || c.SleepMark? || c.SleepSched? || c.Asleep?
  }

  predicate Init(s: State) {
    s.lk == None && s.ptable == None && !s.locked && forall p :: p in s.pc ==> s.pc[p] == Idle
  }

  // ----- steps -----

  function Go(s: State, p: Pid, c: Pc): State { s.(pc := s.pc[p := c]) }

  /** acquiresleep, outside of sleep. */
  predicate AcquireStep(s: State, s': State, p: Pid)
    requires p in s.pc
  {
    match s.pc[p]
    case Idle => s' == Go(s, p, AcqWant)
    case AcqWant => s.lk == None && s' == Go(s, p, AcqTest).(lk := Some(p))
    case AcqTest =>
      s' == if s.locked then Go(s, p, SleepTable) else Go(s, p, AcqRelease).(locked := true, owner := p)
    case AcqRelease => s' == Go(s, p, Holding).(lk := None)
    case _ => false
  }

  /** sleep, from the acquire of ptable.lock to the reacquire of lk. */
  predicate SleepStep(s: State, s': State, p: Pid)
    requires p in s.pc
  {
    match s.pc[p]
    case SleepTable => s.ptable == None && s' == Go(s, p, SleepRelease).(ptable := Some(p))
    case SleepRelease => s' == Go(s, p, SleepMark).(lk := None)
    case SleepMark => s' == Go(s, p, SleepSched)
    case SleepSched => s' == Go(s, p, Asleep).(ptable := None)
    case Woken => s.ptable == None && s' == Go(s, p, SleepTidy).(ptable := Some(p))
    case SleepTidy => s' == Go(s, p, SleepReacquire).(ptable := None)
    case SleepReacquire => s.lk == None && s' == Go(s, p, AcqTest).(lk := Some(p))
    case _ => false
  }

  /** releasesleep, outside of wakeup. */
  predicate ReleaseStep(s: State, s': State, p: Pid)
    requires p in s.pc
  {
    match s.pc[p]
    case Holding => s' == Go(s, p, RelWant)
    case RelWant => s.lk == None && s' == Go(s, p, RelClear).(lk := Some(p))
    case RelClear => s' == Go(s, p, RelWake).(locked := false)
    case RelUnlock => s' == Go(s, p, Idle).(lk := None)
    case _ => false
  }

  /** wakeup takes and releases ptable.lock around the scan. */
  predicate WakeupStep(s: State, s': State, p: Pid)
    requires p in s.pc
  {
    match s.pc[p]
    case RelWake => s.ptable == None && s' == Go(s, p, RelScan).(ptable := Some(p))
    case RelTable => s' == Go(s, p, RelUnlock).(ptable := None)
    case _ => false
  }

  /** The scan of wakeup1. */
  predicate ScanStep(s: State, s': State, p: Pid)
    requires p in s.pc
  {
    s.pc[p] == RelScan && s' == Go(s.(pc := WakeAll(s.pc)), p, RelTable)
  }

  /** Some other user of ptable.lock takes and releases it. */
  predicate TableStep(s: State, s': State, p: Pid)
    requires p in s.pc
  {
    match s.pc[p]
    case Idle => s.ptable == None && s' == Go(s, p, Table).(ptable := Some(p))
    case Table => s' == Go(s, p, Idle).(ptable := None)
    case _ => false
  }

  /** kill: a sleeper becomes RUNNABLE. */
  predicate KillStep(s: State, s': State, p: Pid, target: Pid)
    requires p in s.pc
  {
    s.pc[p] == Table && target in s.pc && s.pc[target] == Asleep && s' == Go(s, target, Woken)
  }

  /** Process p takes its next step; `target` is the process a kill picks. */
  predicate Next(s: State, s': State, p: Pid, target: Pid) {
    && p in s.pc
    && (|| AcquireStep(s, s', p) || SleepStep(s, s', p) || ReleaseStep(s, s', p)
        || WakeupStep(s, s', p) || ScanStep(s, s', p) || TableStep(s, s', p) || KillStep(s, s', p, target))
  }

  /** wakeup1: every process SLEEPING on the channel becomes RUNNABLE. */
  function WakeAll(pc: map<Pid, Pc>): map<Pid, Pc> {
    map p | p in pc :: if pc[p] == Asleep then Woken else pc[p]
  }

  // ----- the invariant -----

  /** The spinlocks are held by exactly the processes inside their critical sections, the sleep
      lock by exactly its owner, and a process that sleeps has either a locked lock or a
      releaser that has still to run wakeup1. */
  ghost predicate Inv(s: State) {
    && (forall p :: p in s.pc && HoldsLk(s.pc[p]) <==> s.lk == Some(p))
    && (forall p :: p in s.pc && HoldsTable(s.pc[p]) <==> s.ptable == Some(p))
    && (forall p :: p in s.pc && Owns(s.pc[p]) <==> s.locked && s.owner == p)
    && (forall p :: p in s.pc && Sleeps(s.pc[p]) ==> s.locked || WakeupPending(s))
  }

  /** The holder of lk has cleared locked and not yet scanned the process table. */
  predicate WakeupPending(s: State) {
    s.lk.Some? && s.lk.value in s.pc && (s.pc[s.lk.value] == RelWake || s.pc[s.lk.value] == RelScan)
  }

  lemma InitInv(s: State)
    requires Init(s)
    ensures Inv(s)
  {
  }

  /** The lock holder after a process moves: it holds, keeps holding, or has released. */
  predicate LockMoves(l: Option<Pid>, l': Option<Pid>, p: Pid, held: bool, holds: bool) {
    if holds then l' == Some(p) && (held || l == None) else l' == if held then None else l
  }

  /** A step that moves only process p keeps the invariant if it handles the locks properly. */
  lemma MoveInv(s: State, s': State, p: Pid)
    requires Inv(s) && p in s.pc && p in s'.pc && s'.pc == s.pc[p := s'.pc[p]]
    requires LockMoves(s.lk, s'.lk, p, HoldsLk(s.pc[p]), HoldsLk(s'.pc[p]))
    requires LockMoves(s.ptable, s'.ptable, p, HoldsTable(s.pc[p]), HoldsTable(s'.pc[p]))
    requires if Owns(s'.pc[p]) then s'.locked && s'.owner == p && (Owns(s.pc[p]) || !s.locked)
             else if Owns(s.pc[p]) then !s'.locked else s'.locked == s.locked && s'.owner == s.owner
    requires s.locked || WakeupPending(s) ==> s'.locked || WakeupPending(s')
    requires Sleeps(s'.pc[p]) ==> Sleeps(s.pc[p]) || s'.locked
    ensures Inv(s')
  {
  }

  lemma AcquireInv(s: State, s': State, p: Pid)
    requires Inv(s) && p in s.pc && AcquireStep(s, s', p)
    ensures Inv(s')
  {
    Places(s, p);
    hide Inv;
    MoveInv(s, s', p);
  }

  lemma SleepInv(s: State, s': State, p: Pid)
    requires Inv(s) && p in s.pc && SleepStep(s, s', p)
    ensures Inv(s')
  {
    Places(s, p);
    hide Inv;
    MoveInv(s, s', p);
  }

  lemma ReleaseInv(s: State, s': State, p: Pid)
    requires Inv(s) && p in s.pc && ReleaseStep(s, s', p)
    ensures Inv(s')
  {
    Places(s, p);
    hide Inv;
    MoveInv(s, s', p);
  }

  lemma WakeupInv(s: State, s': State, p: Pid)
    requires Inv(s) && p in s.pc && WakeupStep(s, s', p)
    ensures Inv(s')
  {
    Places(s, p);
    hide Inv;
    MoveInv(s, s', p);
  }

  lemma TableInv(s: State, s': State, p: Pid)
    requires Inv(s) && p in s.pc && TableStep(s, s', p)
    ensures Inv(s')
  {
    Places(s, p);
    hide Inv;
    MoveInv(s, s', p);
  }

  lemma Places(s: State, p: Pid)
    requires Inv(s) && p in s.pc
    ensures HoldsLk(s.pc[p]) <==> s.lk == Some(p)
    ensures HoldsTable(s.pc[p]) <==> s.ptable == Some(p)
    ensures Owns(s.pc[p]) <==> s.locked && s.owner == p
  {
  }

  /** The scan changes nobody's locks, and at the scan everyone who sleeps has switched away. */
  lemma ScanPcs(s: State, s': State, p: Pid, q: Pid)
    requires Inv(s) && p in s.pc && ScanStep(s, s', p) && q in s.pc
    ensures q in s'.pc && !Sleeps(s'.pc[q])
    ensures HoldsLk(s'.pc[q]) <==> HoldsLk(s.pc[q])
    ensures HoldsTable(s'.pc[q]) <==> HoldsTable(s.pc[q])
    ensures Owns(s'.pc[q]) <==> Owns(s.pc[q])
  {
    Places(s, p);
    Places(s, q);
    hide Inv;
    assert q != p ==> s'.pc[q] == if s.pc[q] == Asleep then Woken else s.pc[q];
  }

  lemma ScanInv(s: State, s': State, p: Pid)
    requires Inv(s) && p in s.pc && ScanStep(s, s', p)
    ensures Inv(s')
  {
    assert s'.lk == s.lk && s'.ptable == s.ptable && s'.locked == s.locked && s'.owner == s.owner && s'.pc.Keys == s.pc.Keys;
    forall q | q in s.pc
      ensures !Sleeps(s'.pc[q]) && (HoldsLk(s'.pc[q]) <==> HoldsLk(s.pc[q]))
      ensures (HoldsTable(s'.pc[q]) <==> HoldsTable(s.pc[q])) && (Owns(s'.pc[q]) <==> Owns(s.pc[q]))
    {
      hide Inv;
      ScanPcs(s, s', p, q);
    }
    hide HoldsLk, HoldsTable, Owns, Sleeps, ScanStep, WakeupPending;
  }

  lemma NextInv(s: State, s': State, p: Pid, target: Pid)
    requires Inv(s) && Next(s, s', p, target)
    ensures Inv(s')
  {
    if KillStep(s, s', p, target) { MoveInv(s, s', target); return; }
    hide Inv, AcquireStep, SleepStep, ReleaseStep, WakeupStep, ScanStep, TableStep, KillStep;
    if AcquireStep(s, s', p) { AcquireInv(s, s', p); }
    else if SleepStep(s, s', p) { SleepInv(s, s', p); }
    else if ReleaseStep(s, s', p) { ReleaseInv(s, s', p); }
    else if WakeupStep(s, s', p) { WakeupInv(s, s', p); }
    else if ScanStep(s, s', p) { ScanInv(s, s', p); }
    else { TableInv(s, s', p); }
  }

  /** A run: in step i process who[i] moves. */
  ghost predicate Run(ss: seq<State>, who: seq<(Pid, Pid)>) {
    && |ss| == |who| + 1 && Init(ss[0])
    && forall i :: 0 <= i < |who| ==> Next(ss[i], ss[i + 1], who[i].0, who[i].1)
  }

  lemma {:induction false} RunInv(ss: seq<State>, who: seq<(Pid, Pid)>, i: nat)
    requires Run(ss, who) && i < |ss|
    ensures Inv(ss[i])
  {
    if i == 0 { InitInv(ss[0]); }
    else {
      RunInv(ss, who, i - 1);
      NextInv(ss[i - 1], ss[i], who[i - 1].0, who[i - 1].1);
    }
  }

  // ----- theorems -----

  /** At every point of every run at most one process owns the sleep lock, and every sleeper has
      an owner to wait for or a releaser about to wake it. */
  lemma MutualExclusionAndWaker(ss: seq<State>, who: seq<(Pid, Pid)>, i: nat, p: Pid, q: Pid)
    requires Run(ss, who) && i < |ss| && p in ss[i].pc && q in ss[i].pc
    ensures Owns(ss[i].pc[p]) && Owns(ss[i].pc[q]) ==> p == q
    ensures Sleeps(ss[i].pc[p]) ==>
              (ss[i].locked && ss[i].owner in ss[i].pc && Owns(ss[i].pc[ss[i].owner])) || WakeupPending(ss[i])
  {
    RunInv(ss, who, i);
  }

  /** No lost wakeup: when a releaser scans the process table, every process that has seen the
      lock taken is already SLEEPING, and after the scan none of them sleeps. */
  lemma WakeupReachesAll(s: State, s': State, q: Pid, target: Pid)
    requires Inv(s) && q in s.pc && s.pc[q] == RelScan && Next(s, s', q, target)
    ensures forall p :: p in s.pc && Sleeps(s.pc[p]) ==> s.pc[p] == Asleep && s'.pc[p] == Woken
    ensures forall p :: p in s'.pc ==> !Sleeps(s'.pc[p])
  {
  }

  /** No deadlock: while some process is inside, some process inside can move. */
  lemma CanMove(s: State, p: Pid) returns (q: Pid, s': State)
    requires Inv(s) && p in s.pc && s.pc[p] != Idle
    ensures q in s.pc && s.pc[q] != Idle && Next(s, s', q, q)
  {
    if s.ptable.Some? {
      q := s.ptable.value;
      match s.pc[q] {
        case SleepRelease => s' := Go(s, q, SleepMark).(lk := None);
        case SleepMark => s' := Go(s, q, SleepSched);
        case SleepSched => s' := Go(s, q, Asleep).(ptable := None);
        case SleepTidy => s' := Go(s, q, SleepReacquire).(ptable := None);
        case RelScan => s' := Go(s.(pc := WakeAll(s.pc)), q, RelTable);
        case RelTable => s' := Go(s, q, RelUnlock).(ptable := None);
        case _ => s' := Go(s, q, Idle).(ptable := None);
      }
    } else if s.lk.Some? {
      q := s.lk.value;
      match s.pc[q] {
        case AcqTest => s' := if s.locked then Go(s, q, SleepTable) else Go(s, q, AcqRelease).(locked := true, owner := q);
        case SleepTable => s' := Go(s, q, SleepRelease).(ptable := Some(q));
        case AcqRelease => s' := Go(s, q, Holding).(lk := None);
        case RelClear => s' := Go(s, q, RelWake).(locked := false);
        case RelWake => s' := Go(s, q, RelScan).(ptable := Some(q));
        case _ => s' := Go(s, q, Idle).(lk := None);
      }
    } else {
      q := if s.pc[p] == Asleep then s.owner else p;
      match s.pc[q] {
        case AcqWant => s' := Go(s, q, AcqTest).(lk := Some(q));
        case Woken => s' := Go(s, q, SleepTidy).(ptable := Some(q));
        case SleepReacquire => s' := Go(s, q, AcqTest).(lk := Some(q));
        case Holding => s' := Go(s, q, RelWant);
        case _ => s' := Go(s, q, RelClear).(lk := Some(q));
      }
    }
  }

  // ----- what a call comes to -----

  datatype Call = NoCall | Acquire | Release | Other

  /** The call that a process is in. */
  function CallOf(c: Pc): Call {
    match c
    case Idle | Holding => NoCall
    case Table => Other
    case RelWant | RelClear | RelWake | RelScan | RelTable | RelUnlock => Release
    case _ => Acquire
  }

  /** What a process can come to from c in one step of anybody: acquiresleep returns with the lock held,
      releasesleep outside. */
  predicate Goes(c: Pc, c': Pc) {
    || CallOf(c') == CallOf(c) != NoCall || c' == c
    || (c == Idle && (CallOf(c') == Acquire || CallOf(c') == Other)) || (c == Holding && CallOf(c') == Release)
    || (CallOf(c) == Acquire && c' == Holding) || ((CallOf(c) == Release || CallOf(c) == Other) && c' == Idle)
  }

  lemma CallStep(s: State, s': State, p: Pid, target: Pid, q: Pid)
    requires Next(s, s', p, target) && q in s.pc
    ensures q in s'.pc && Goes(s.pc[q], s'.pc[q])
  {
    if ScanStep(s, s', p) || KillStep(s, s', p, target) { return; }
    assert s'.pc.Keys == s.pc.Keys && forall r :: r in s.pc && r != p ==> s'.pc[r] == s.pc[r];
    if q == p { OwnStep(s, s', p); }
  }

  lemma OwnStep(s: State, s': State, p: Pid)
    requires p in s.pc
    requires AcquireStep(s, s', p) || SleepStep(s, s', p) || ReleaseStep(s, s', p) || WakeupStep(s, s', p) || TableStep(s, s', p)
    ensures p in s'.pc && Goes(s.pc[p], s'.pc[p])
  {
  }

  /** A call of acquiresleep ends only with the process owning the lock. */
  lemma {:induction false} AcquireEnds(ss: seq<State>, who: seq<(Pid, Pid)>, i: nat, j: nat, q: Pid) returns (k: nat)
    requires Run(ss, who) && i <= j < |ss| && q in ss[i].pc && CallOf(ss[i].pc[q]) == Acquire
    ensures i <= k <= j && forall m :: i <= m <= k ==> q in ss[m].pc
    ensures forall m :: i <= m < k ==> CallOf(ss[m].pc[q]) == Acquire
    ensures (ss[k].pc[q] == Holding && ss[k].locked && ss[k].owner == q) || (k == j && CallOf(ss[j].pc[q]) == Acquire)
    decreases j
  {
    hide Inv, Next, Init;
    if i == j { return i; }
    k := AcquireEnds(ss, who, i, j - 1, q);
    if k == j - 1 && CallOf(ss[k].pc[q]) == Acquire {
      CallStep(ss[k], ss[j], who[k].0, who[k].1, q);
      k := j;
      if ss[k].pc[q] == Holding {
        RunInv(ss, who, k);
        Places(ss[k], q);
      }
    }
  }

  /** With the lock free and nobody in the way, four steps of its own take a process through acquiresleep. */
  lemma AcquireFree(s: State, p: Pid) returns (ss: seq<State>)
    requires p in s.pc && s.pc[p] == Idle && s.lk == None && !s.locked
    ensures |ss| == 5 && ss[0] == s && ss[4] == Go(s, p, Holding).(locked := true, owner := p)
    ensures forall i :: 0 <= i < 4 ==> Next(ss[i], ss[i + 1], p, p)
  {
    var s1 := Go(s, p, AcqWant);
    var s2 := Go(s1, p, AcqTest).(lk := Some(p));
    var s3 := Go(s2, p, AcqRelease).(locked := true, owner := p);
    var s4 := Go(s3, p, Holding).(lk := None);
    ss := [s, s1, s2, s3, s4];
    assert Next(s, s1, p, p) && Next(s1, s2, p, p) && Next(s2, s3, p, p) && Next(s3, s4, p, p);
    hide Next;
  }

  /** With nobody in the way, seven steps take the owner through releasesleep: the lock is free, and whoever
      slept is awake. */
  lemma ReleaseFree(s: State, p: Pid) returns (ss: seq<State>)
    requires p in s.pc && s.pc[p] == Holding && s.lk == None && s.ptable == None
    ensures |ss| == 8 && ss[0] == s && ss[7] == s.(locked := false, pc := WakeAll(s.pc)[p := Idle])
    ensures forall i :: 0 <= i < 7 ==> Next(ss[i], ss[i + 1], p, p)
  {
    var s1 := Go(s, p, RelWant);
    var s2 := Go(s1, p, RelClear).(lk := Some(p));
    var s3 := Go(s2, p, RelWake).(locked := false);
    var s4 := Go(s3, p, RelScan).(ptable := Some(p));
    assert Next(s, s1, p, p) && Next(s1, s2, p, p) && Next(s2, s3, p, p) && Next(s3, s4, p, p);
    var s5, s6, s7 := ScanFree(s4, p);
    hide Next;
    assert s7.pc == WakeAll(s.pc)[p := Idle];
    ss := [s, s1, s2, s3, s4, s5, s6, s7];
  }

  lemma ScanFree(s: State, p: Pid) returns (s1: State, s2: State, s3: State)
    requires p in s.pc && s.pc[p] == RelScan
    ensures Next(s, s1, p, p) && Next(s1, s2, p, p) && Next(s2, s3, p, p)
    ensures s3 == s.(lk := None, ptable := None, pc := WakeAll(s.pc)[p := Idle])
  {
    s1 := Go(s.(pc := WakeAll(s.pc)), p, RelTable);
    s2 := Go(s1, p, RelUnlock).(ptable := None);
    s3 := Go(s2, p, Idle).(lk := None);
  }

  // ----- refinement of atomic release-and-sleep -----

  /** The same lock with sleep as one atomic step that releases lk and goes to sleep, and wakeup
      as one atomic step; there is no ptable.lock. */
  datatype APc = AIdle | AWant | ATest | ASleeping | ATaken | AHolding | ARelWant | AClear | AWake | AUnlock

  datatype AState = AState(lk: Option<Pid>, locked: bool, owner: Pid, pc: map<Pid, APc>)

  function AGo(a: AState, p: Pid, c: APc): AState { a.(pc := a.pc[p := c]) }

  ghost predicate ANext(a: AState, a': AState, p: Pid, target: Pid) {
    && p in a.pc
    && match a.pc[p]
       case AIdle =>
         || a' == AGo(a, p, AWant)
         || (target in a.pc && a.pc[target] == ASleeping && a' == AGo(a, target, AWant))
       case AWant => a.lk == None && a' == AGo(a, p, ATest).(lk := Some(p))
       case ATest =>
         a' == if a.locked then AGo(a, p, ASleeping).(lk := None) else AGo(a, p, ATaken).(locked := true, owner := p)
       case ASleeping => false
       case ATaken => a' == AGo(a, p, AHolding).(lk := None)
       case AHolding => a' == AGo(a, p, ARelWant)
       case ARelWant => a.lk == None && a' == AGo(a, p, AClear).(lk := Some(p))
       case AClear => a' == AGo(a, p, AWake).(locked := false)
       case AWake => a' == AGo(a.(pc := AWakeAll(a.pc)), p, AUnlock)
       case AUnlock => a' == AGo(a, p, AIdle).(lk := None)
  }

  function AWakeAll(pc: map<Pid, APc>): map<Pid, APc> {
    map p | p in pc :: if pc[p] == ASleeping then AWant else pc[p]
  }

  function AbsPc(c: Pc): APc {
    match c
    case Idle | Table => AIdle
    case AcqWant | Woken | SleepTidy | SleepReacquire => AWant
    case AcqTest | SleepTable | SleepRelease => ATest
    case SleepMark | SleepSched | Asleep => ASleeping
    case AcqRelease => ATaken
    case Holding => AHolding
    case RelWant => ARelWant
    case RelClear => AClear
    case RelWake | RelScan => AWake
    case RelTable | RelUnlock => AUnlock
  }

  function Abs(s: State): AState {
    AState(s.lk, s.locked, s.owner, map p | p in s.pc :: AbsPc(s.pc[p]))
  }

  /** A move of one process to pc c is, abstractly, its move to AbsPc(c). */
  lemma AbsMove(s: State, s': State, p: Pid)
    requires p in s.pc && p in s'.pc && s'.pc == s.pc[p := s'.pc[p]]
    ensures var a := Abs(s);
      && p in a.pc && a.pc[p] == AbsPc(s.pc[p]) && a.lk == s.lk && a.locked == s.locked && a.owner == s.owner
      && Abs(s') == AState(s'.lk, s'.locked, s'.owner, a.pc[p := AbsPc(s'.pc[p])])
      && (AbsPc(s'.pc[p]) == AbsPc(s.pc[p]) ==> Abs(s').pc == a.pc)
  {
    assert Abs(s').pc == Abs(s).pc[p := AbsPc(s'.pc[p])];
  }

  /** Split-step sleep and wakeup do nothing that the atomic ones cannot: each step is a step of
      the atomic machine or leaves its state unchanged. */
  lemma Refines(s: State, s': State, p: Pid, target: Pid)
    requires Inv(s) && Next(s, s', p, target)
    ensures Abs(s') == Abs(s) || ANext(Abs(s), Abs(s'), p, target)
  {
    assert s.pc[p] == SleepRelease ==> s.locked;
    hide Inv, ANext, Abs, AcquireStep, SleepStep, ReleaseStep, WakeupStep, ScanStep, TableStep, KillStep;
    if AcquireStep(s, s', p) { RefinesAcquire(s, s', p, target); }
    else if SleepStep(s, s', p) { RefinesSleep(s, s', p, target); }
    else if ReleaseStep(s, s', p) { RefinesRelease(s, s', p, target); }
    else if WakeupStep(s, s', p) { RefinesWakeup(s, s', p); }
    else if ScanStep(s, s', p) { RefinesScan(s, s', p, target); }
    else if TableStep(s, s', p) { RefinesTable(s, s', p, target); }
    else { RefinesKill(s, s', p, target); }
  }

  lemma RefinesAcquire(s: State, s': State, p: Pid, target: Pid)
    requires p in s.pc && AcquireStep(s, s', p)
    ensures Abs(s') == Abs(s) || ANext(Abs(s), Abs(s'), p, target)
  {
    AbsMove(s, s', p);
    hide Abs, AWakeAll;
  }

  /** Releasing lk is the moment of atomic sleep; the lock is still taken then. */
  lemma RefinesSleep(s: State, s': State, p: Pid, target: Pid)
    requires p in s.pc && SleepStep(s, s', p) && (s.pc[p] == SleepRelease ==> s.locked)
    ensures Abs(s') == Abs(s) || ANext(Abs(s), Abs(s'), p, target)
  {
    AbsMove(s, s', p);
    hide Abs, AWakeAll;
  }

  lemma RefinesRelease(s: State, s': State, p: Pid, target: Pid)
    requires p in s.pc && ReleaseStep(s, s', p)
    ensures Abs(s') == Abs(s) || ANext(Abs(s), Abs(s'), p, target)
  {
    AbsMove(s, s', p);
    hide Abs, AWakeAll;
  }

  lemma RefinesWakeup(s: State, s': State, p: Pid)
    requires p in s.pc && WakeupStep(s, s', p)
    ensures Abs(s') == Abs(s)
  {
    AbsMove(s, s', p);
    hide Abs;
  }

  lemma RefinesTable(s: State, s': State, p: Pid, target: Pid)
    requires p in s.pc && TableStep(s, s', p)
    ensures Abs(s') == Abs(s) || ANext(Abs(s), Abs(s'), p, target)
  {
    AbsMove(s, s', p);
    hide Abs, AWakeAll;
  }

  lemma RefinesKill(s: State, s': State, p: Pid, target: Pid)
    requires p in s.pc && KillStep(s, s', p, target)
    ensures ANext(Abs(s), Abs(s'), p, target)
  {
    AbsMove(s, s', target);
  }

  /** The scanner holds ptable.lock, so nobody is between marking itself and switching away. */
  lemma NobodyFalling(s: State, p: Pid)
    requires Inv(s) && p in s.pc && s.pc[p] == RelScan
    ensures forall q :: q in s.pc ==> s.pc[q] != SleepMark && s.pc[q] != SleepSched
  {
  }

  lemma ScanAbs(pc: map<Pid, Pc>, p: Pid)
    requires forall q :: q in pc ==> pc[q] != SleepMark && pc[q] != SleepSched
    requires p in pc && pc[p] == RelScan
    ensures var a: map<Pid, APc> := map q | q in pc :: AbsPc(pc[q]);
      var pc' := WakeAll(pc)[p := RelTable];
      (map q | q in pc' :: AbsPc(pc'[q])) == AWakeAll(a)[p := AUnlock]
  {
    var a: map<Pid, APc> := map q | q in pc :: AbsPc(pc[q]);
    var pc' := WakeAll(pc)[p := RelTable];
    assert AbsPc(RelTable) == AUnlock;
    forall q | q in pc' ensures AbsPc(pc'[q]) == AWakeAll(a)[p := AUnlock][q] {
      ScanPc(pc[q]);
      hide AbsPc;
    }
    hide AbsPc;
  }

  /** Waking a process is, abstractly, waking it. */
  lemma ScanPc(c: Pc)
    requires c != SleepMark && c != SleepSched
    ensures AbsPc(if c == Asleep then Woken else c) == if AbsPc(c) == ASleeping then AWant else AbsPc(c)
  {
  }

  /** The scan wakes exactly the processes that the atomic machine has sleeping. */
  lemma RefinesScan(s: State, s': State, p: Pid, target: Pid)
    requires Inv(s) && p in s.pc && ScanStep(s, s', p)
    ensures ANext(Abs(s), Abs(s'), p, target)
  {
    hide Inv;
    NobodyFalling(s, p);
    ScanAbs(s.pc, p);
    hide WakeAll, AWakeAll;
  }
}
