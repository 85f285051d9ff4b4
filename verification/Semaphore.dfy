/** The semaphore of proc.c: xem_wait and xem_unlock with their array of channels, and the FIFO
queue that they implement.  Each call is one step under the semaphore's spinlock; going to
sleep is atomic with releasing it (SleepLock.Refines).  Sleepers are woken by nobody else. */
module Semaphore {
  import opened Types

  const NPROC: nat := 64
  const SIZE: nat := 9991

  /** A slot of the process table. */
  type Pid = p: nat | p < NPROC

  /** The struct, the sleeping processes with the index of the channel each sleeps on, the woken
      ones still inside xem_wait with those of them that a kill woke, and how many have been let
      through and not yet been matched by an xem_unlock.  blocked lists every process that ever
      had to sleep, in order. */
  datatype State = State(
    value: int,
    end: int,
    count: nat,
    dcount: nat,
    asleep: map<Pid, nat>,
    woken: set<Pid>,
    killed: set<Pid>,
    admitted: nat,
    blocked: seq<Pid>
  )

  /** xem_init makes v == 1. */
  predicate Init(s: State, v: nat) {
    s == State(v, 0, 0, 0, map[], {}, {}, 0, [])
  }

  datatype Step = Wait(p: Pid) | Return(p: Pid) | Unlock

  /** Unlock matches an earlier wait, whoever made it. */
  predicate Enabled(s: State, t: Step) {
    match t
    case Wait(p) => p !in s.asleep && p !in s.woken
    case Return(p) => p in s.woken
    case Unlock => s.admitted > 0
  }

  /** The index of the channel of the i-th turn. */
  function Chan(i: nat): nat { i % SIZE }

  /** wakeup(&arr[c]). */
  function Sleepers(s: State, c: nat): set<Pid> {
    set p | p in s.asleep && s.asleep[p] == c
  }

  function Next(s: State, t: Step): State
    requires Enabled(s, t)
  {
    match t
    case Wait(p) =>
      if s.value - 1 < 0 then
        s.(value := s.value - 1, asleep := s.asleep[p := Chan(s.count)], count := s.count + 1, blocked := s.blocked + [p])
      else s.(value := s.value - 1, admitted := s.admitted + 1)
    case Return(p) =>
      s.(end := s.end - 1, woken := s.woken - {p}, killed := s.killed - {p},
         admitted := s.admitted + if p in s.killed then 1 else 0)
    case Unlock =>
      if s.value + 1 <= 0 then
        var w := Sleepers(s, Chan(s.dcount));
        s.(value := s.value + 1, end := s.end + 1, dcount := s.dcount + 1,
           asleep := s.asleep - w, woken := s.woken + w, admitted := s.admitted - 1 + |w|)
      else s.(value := s.value + 1, admitted := s.admitted - 1)
  }

  /** The processes waiting, oldest first. */
  function Queue(s: State): seq<Pid>
    requires s.dcount <= s.count == |s.blocked|
  {
    s.blocked[s.dcount..]
  }

  /** Conservation: value, the admitted and the waiting add up to v; the sleepers are the queue,
      each on the channel of its turn. */
  ghost predicate Inv(s: State, v: nat) {
    && s.dcount <= s.count == |s.blocked|
    && s.value == v - s.admitted - (s.count - s.dcount)
    && s.count - s.dcount == (if s.value < 0 then -s.value else 0)
    && NoDup(Queue(s))
    && (forall p :: p in s.asleep ==> p in Queue(s))
    && (forall i :: s.dcount <= i < s.count ==> s.blocked[i] in s.asleep && s.asleep[s.blocked[i]] == Chan(i))
    && s.asleep.Keys !! s.woken
    && s.end == |s.woken| && s.killed == {}
  }

  lemma {:induction false} PigeonHole(q: seq<Pid>, n: nat)
    requires NoDup(q) && forall i :: 0 <= i < |q| ==> q[i] < n
    ensures |q| <= n
  {
    if q != [] {
      assert q[0] < n;
      if exists i :: 0 <= i < |q| && q[i] == n - 1 {
        var i :| 0 <= i < |q| && q[i] == n - 1;
        PigeonHole(q[..i] + q[i + 1..], n - 1);
      } else {
        PigeonHole(q, n - 1);
      }
    }
  }

  /** There are never more waiters than processes, so the channels of the queue are distinct. */
  lemma WaitersBounded(s: State, v: nat)
    requires Inv(s, v)
    ensures s.count - s.dcount <= NPROC < SIZE
  {
    PigeonHole(Queue(s), NPROC);
  }

  /** Two numbers closer than SIZE have different channels. */
  lemma ChannelsDiffer(a: nat, b: nat)
    requires a < b < a + SIZE
    ensures Chan(a) != Chan(b)
  {
  }

  /** The channel of a waiter's turn has that waiter as its only sleeper. */
  lemma OneSleeper(s: State, v: nat, i: nat)
    requires Inv(s, v) && s.dcount <= i < s.count
    ensures Sleepers(s, Chan(i)) == {s.blocked[i]}
  {
    WaitersBounded(s, v);
    hide Chan;
    var q, d := Queue(s), s.dcount;
    forall p | p in Sleepers(s, Chan(i)) ensures p == s.blocked[i] {
      var j :| 0 <= j < |q| && q[j] == p;
      assert s.asleep[s.blocked[d + j]] == Chan(d + j);
      if d + j < i { ChannelsDiffer(d + j, i); } else if i < d + j { ChannelsDiffer(i, d + j); }
    }
    assert s.blocked[i] == q[i - d];
  }

  /** xem_unlock with waiters wakes exactly the process that has waited longest. */
  lemma WakesOldest(s: State, v: nat)
    requires Inv(s, v) && s.value < 0
    ensures s.dcount < s.count && Sleepers(s, Chan(s.dcount)) == {s.blocked[s.dcount]}
  {
    OneSleeper(s, v, s.dcount);
  }

  // ----- the queue it implements -----

  /** A semaphore as a counter with a FIFO queue. */
  datatype Fifo = Fifo(value: int, queue: seq<Pid>)

  function Abs(s: State): Fifo
    requires s.dcount <= s.count == |s.blocked|
  {
    Fifo(s.value, Queue(s))
  }

  function FifoWait(f: Fifo, p: Pid): Fifo {
    Fifo(f.value - 1, if f.value - 1 < 0 then f.queue + [p] else f.queue)
  }

  function FifoUnlock(f: Fifo): Fifo {
    Fifo(f.value + 1, if f.value + 1 <= 0 && f.queue != [] then f.queue[1..] else f.queue)
  }

  lemma WaitInv(s: State, v: nat, p: Pid)
    requires Inv(s, v) && Enabled(s, Wait(p))
    ensures Inv(Next(s, Wait(p)), v) && Abs(Next(s, Wait(p))) == FifoWait(Abs(s), p)
  {
    hide Chan;
    var s' := Next(s, Wait(p));
    if s.value - 1 < 0 {
      assert Queue(s') == Queue(s) + [p];
      forall i | s'.dcount <= i < s'.count ensures s'.blocked[i] in s'.asleep && s'.asleep[s'.blocked[i]] == Chan(i) {
        if i < s.count { assert s.blocked[i] == Queue(s)[i - s.dcount]; }
      }
    } else {
      assert Queue(s') == Queue(s);
    }
  }

  /** Handing over to the oldest waiter keeps the rest of the queue in place. */
  lemma HandOver(s: State, v: nat, s': State)
    requires Inv(s, v) && s.value < 0
    requires var p := s.blocked[s.dcount];
      s' == s.(value := s.value + 1, end := s.end + 1, dcount := s.dcount + 1,
               asleep := s.asleep - {p}, woken := s.woken + {p})
    ensures Inv(s', v) && Queue(s') == Queue(s)[1..] && s.blocked[s.dcount] !in s.woken
  {
    hide Chan;
    var q, d := Queue(s), s.dcount;
    assert Queue(s') == q[1..];
    Tail(q);
    assert q[0] == s.blocked[d];
    LaterDiffer(s);
    hide Queue;
  }

  lemma LaterDiffer(s: State)
    requires s.dcount < s.count == |s.blocked| && NoDup(Queue(s))
    ensures forall i :: s.dcount < i < s.count ==> s.blocked[i] != s.blocked[s.dcount]
  {
    var q := Queue(s);
    forall i | s.dcount < i < s.count ensures s.blocked[i] != s.blocked[s.dcount] {
      assert q[i - s.dcount] == s.blocked[i] && q[0] == s.blocked[s.dcount];
    }
  }

  lemma UnlockWakes(s: State, v: nat)
    requires Inv(s, v) && s.admitted > 0 && s.value < 0
    ensures Inv(Next(s, Unlock), v) && Abs(Next(s, Unlock)) == FifoUnlock(Abs(s))
    ensures Next(s, Unlock).woken == s.woken + {s.blocked[s.dcount]} && s.blocked[s.dcount] !in s.woken
  {
    WakesOldest(s, v);
    HandOver(s, v, Next(s, Unlock));
  }

  lemma Tail<T>(q: seq<T>)
    requires q != [] && NoDup(q)
    ensures NoDup(q[1..]) && forall x :: x in q && x != q[0] ==> x in q[1..]
  {
    forall x | x in q && x != q[0] ensures x in q[1..] {
      var i :| 0 <= i < |q| && q[i] == x;
      assert q[1..][i - 1] == x;
    }
  }

  /** The channel array refines the queue: every step keeps conservation and is the queue's step. */
  lemma RefinesFifo(s: State, v: nat, t: Step)
    requires Inv(s, v) && Enabled(s, t)
    ensures Inv(Next(s, t), v)
    ensures Abs(Next(s, t)) ==
      match t case Wait(p) => FifoWait(Abs(s), p) case Unlock => FifoUnlock(Abs(s)) case Return(p) => Abs(s)
  {
    match t
    case Wait(p) => WaitInv(s, v, p);
    case Unlock =>
      if s.value < 0 { UnlockWakes(s, v); }
      else { assert Queue(Next(s, t)) == Queue(s); }
    case Return(p) => assert Queue(Next(s, t)) == Queue(s);
  }

  // ----- whole runs -----

  ghost predicate Run(ss: seq<State>, ts: seq<Step>, v: nat) {
    && |ss| == |ts| + 1 && Init(ss[0], v)
    && forall i :: 0 <= i < |ts| ==> Enabled(ss[i], ts[i]) && ss[i + 1] == Next(ss[i], ts[i])
  }

  lemma {:induction false} RunInv(ss: seq<State>, ts: seq<Step>, v: nat, i: nat)
    requires Run(ss, ts, v) && i < |ss|
    ensures Inv(ss[i], v)
  {
    if i == 0 { assert Queue(ss[0]) == []; }
    else {
      RunInv(ss, ts, v, i - 1);
      RefinesFifo(ss[i - 1], v, ts[i - 1]);
    }
  }

  /** value = v - admitted - waiting, and the number waiting is count - dcount. */
  predicate Balanced(s: State, v: nat) {
    s.value == v - s.admitted - |s.asleep| && s.count - s.dcount == |s.asleep|
  }

  lemma InvBalanced(s: State, v: nat)
    requires Inv(s, v)
    ensures Balanced(s, v) && |s.asleep| == (if s.value < 0 then -s.value else 0) && s.admitted <= v
  {
    assert forall x :: x in Queue(s) ==> x in s.asleep.Keys;
    Card(Queue(s), s.asleep.Keys);
  }

  /** In every run: never more than v admitted; value = v - admitted - waiting; the number
      waiting is count - dcount, and it is -value when that is positive. */
  lemma Conservation(ss: seq<State>, ts: seq<Step>, v: nat, i: nat)
    requires Run(ss, ts, v) && i < |ss|
    ensures var s := ss[i];
      && s.admitted <= v
      && s.value == v - s.admitted - |s.asleep|
      && s.count - s.dcount == |s.asleep| == (if s.value < 0 then -s.value else 0)
      && s.end == |s.woken|
  {
    RunInv(ss, ts, v, i);
    InvBalanced(ss[i], v);
  }

  lemma {:induction false} Card<T>(q: seq<T>, s: set<T>)
    requires NoDup(q) && forall x :: x in s <==> x in q
    ensures |s| == |q|
  {
    if q != [] {
      var n := |q| - 1;
      assert q == q[..n] + [q[n]];
      Card(q[..n], s - {q[n]});
    }
  }

  /** FIFO hand-off: the k-th unlock that finds a waiter wakes the k-th process that went to
      sleep, and only it; in between, waiters keep their places. */
  lemma FifoHandOff(ss: seq<State>, ts: seq<Step>, v: nat, i: nat)
    requires Run(ss, ts, v) && i < |ts|
    ensures ss[i].blocked <= ss[i + 1].blocked
    ensures ts[i] == Unlock && ss[i].value < 0 ==>
      && ss[i].dcount < |ss[i].blocked| && ss[i + 1].dcount == ss[i].dcount + 1
      && ss[i + 1].woken - ss[i].woken == {ss[i].blocked[ss[i].dcount]}
    ensures !(ts[i] == Unlock && ss[i].value < 0) ==>
      ss[i + 1].dcount == ss[i].dcount && ss[i + 1].woken <= ss[i].woken
  {
    RunInv(ss, ts, v, i);
    if ts[i] == Unlock && ss[i].value < 0 {
      WakesOldest(ss[i], v);
      UnlockWakes(ss[i], v);
    }
  }

  // ----- where it stops being true -----

  /** kill of a sleeper: it becomes runnable without having been handed anything. */
  function Kill(s: State, p: Pid): State {
    if p in s.asleep then s.(asleep := s.asleep - {p}, woken := s.woken + {p}, killed := s.killed + {p}) else s
  }

  /** A kill keeps the balance exactly if its target is not waiting. */
  lemma KillExactly(s: State, v: nat, p: Pid)
    requires Inv(s, v)
    ensures Balanced(Kill(s, p), v) <==> p !in s.asleep
  {
    InvBalanced(s, v);
    if p in s.asleep {
      assert Kill(s, p).asleep.Keys == s.asleep.Keys - {p};
      assert |Kill(s, p).asleep| == |Kill(s, p).asleep.Keys| == |s.asleep.Keys| - 1;
    }
  }

  /** Since xem_wait does not test again after sleep, a killed waiter goes on: then more than v
      processes are past xem_wait, whatever its place in the queue was. */
  lemma KilledWaiterPasses(s: State, v: nat, p: Pid)
    requires Inv(s, v) && p in s.asleep
    ensures Enabled(Kill(s, p), Return(p)) && Next(Kill(s, p), Return(p)).admitted == v + 1
  {
  }

  /** The unlock of the killed waiter's turn finds nobody to wake, whatever its place was. */
  lemma KilledTurnIsLost(s: State, v: nat, i: nat)
    requires Inv(s, v) && s.dcount <= i < s.count
    ensures Sleepers(s, Chan(i)) == {s.blocked[i]}
    ensures Sleepers(Kill(s, s.blocked[i]), Chan(i)) == {}
  {
    OneSleeper(s, v, i);
    hide Chan;
    var p := s.blocked[i];
    assert Sleepers(Kill(s, p), Chan(i)) == Sleepers(s, Chan(i)) - {p};
  }

  /** A run to such a state: with one unit, both processes are past xem_wait. */
  lemma TwoPassOneUnit() returns (ss: seq<State>, ts: seq<Step>)
    ensures Run(ss, ts, 1) && |ss| == 3
    ensures 1 in ss[2].asleep && Next(Kill(ss[2], 1), Return(1)).admitted == 2
  {
    var s0 := State(1, 0, 0, 0, map[], {}, {}, 0, []);
    ts := [Wait(0), Wait(1)];
    var s1 := Next(s0, ts[0]);
    var s2 := Next(s1, ts[1]);
    ss := [s0, s1, s2];
  }
}
