/** pipe.c: the ring buffer with its free-running 32-bit counters, and the protocol of any number
of readers and writers that sleep and wake each other.  A process runs from the moment it
holds the pipe's lock until it returns or goes to sleep; that stretch is one step. */
module Pipe {
  import opened Types

  const PIPESIZE: nat := 512

  // ----- the ring as a value -----

  type Data = d: seq<Byte> | |d| == PIPESIZE witness seq(PIPESIZE, i => 0)

  datatype Buf = Buf(data: Data, nread: uint, nwrite: uint)

  /** nwrite - nread in 32-bit arithmetic. */
  function Len(b: Buf): nat { (b.nwrite + UINT - b.nread) % UINT }

  /** The bytes written and not yet read, oldest first. */
  ghost function Buffered(b: Buf): (r: seq<Byte>)
    ensures |r| == Len(b)
  {
    seq<Byte>(Len(b), k requires 0 <= k < Len(b) => b.data[(b.nread + k) % PIPESIZE])
  }

  /** pipewrite's test. */
  predicate Full(b: Buf) { b.nwrite == (b.nread + PIPESIZE) % UINT }

  /** piperead's test. */
  predicate Empty(b: Buf) { b.nread == b.nwrite }

  /** One byte stored. */
  function Put(b: Buf, x: Byte): Buf {
    Buf(b.data[b.nwrite % PIPESIZE := x], b.nread, (b.nwrite + 1) % UINT)
  }

  function First(b: Buf): Byte { b.data[b.nread % PIPESIZE] }

  /** One byte taken. */
  function Drop(b: Buf): Buf { b.(nread := (b.nread + 1) % UINT) }

  /** pipewrite's loop until the pipe is full: the ring after it and the bytes left over. */
  function WriteLoop(b: Buf, src: seq<Byte>): (r: (Buf, seq<Byte>))
    ensures |r.1| <= |src|
    decreases |src|
  {
    if src == [] || Full(b) then (b, src) else WriteLoop(Put(b, src[0]), src[1..])
  }

  /** piperead's loop: the ring after it and the bytes read. */
  function ReadLoop(b: Buf, n: int): (Buf, seq<Byte>)
    decreases n
  {
    if n <= 0 || Empty(b) then (b, [])
    else
      var (b', got) := ReadLoop(Drop(b), n - 1);
      (b', [First(b)] + got)
  }

  // ----- what the loops mean -----

  /** Bytes a writer with `todo` bytes left can put into a pipe holding n bytes. */
  function Fits(n: nat, todo: nat): nat
    requires n <= PIPESIZE
  {
    if todo <= PIPESIZE - n then todo else PIPESIZE - n
  }

  /** Bytes a reader asking for `want` takes from a pipe holding n. */
  function Takes(n: nat, want: int): nat {
    if want <= 0 then 0 else if want <= n then want else n
  }

  /** The two tests in terms of the number of bytes buffered. */
  lemma Tests(b: Buf)
    ensures Full(b) <==> Len(b) == PIPESIZE
    ensures Empty(b) <==> Len(b) == 0
  {
  }

  /** PIPESIZE divides 2^32, so the index survives the wrap of the counter. */
  lemma WrapIndex(r: nat, k: nat)
    requires r <= UINT
    ensures (r % UINT + k) % PIPESIZE == (r + k) % PIPESIZE
  {
    if r == UINT { assert UINT + k == PIPESIZE * 0x80_0000 + k; }
  }

  /** Taking one byte shortens the distance between the counters by one. */
  lemma CounterStep(r: uint, w: uint)
    requires r != w
    ensures (w + UINT - (r + 1) % UINT) % UINT == (w + UINT - r) % UINT - 1
  {
  }

  /** A byte put into the ring joins the end, also when nwrite wraps. */
  lemma PutAppends(b: Buf, x: Byte)
    requires Len(b) < PIPESIZE
    ensures Len(Put(b, x)) == Len(b) + 1 && Buffered(Put(b, x)) == Buffered(b) + [x]
  {
    var len := Len(b);
    assert (b.nread + len) % UINT == b.nwrite;
    assert (b.nread + len) % PIPESIZE == b.nwrite % PIPESIZE;
    assert Len(Put(b, x)) == len + 1;
  }

  /** The byte taken out of the ring is the oldest, also when nread wraps. */
  lemma DropTakes(b: Buf)
    requires Len(b) > 0
    ensures Len(Drop(b)) == Len(b) - 1 && Buffered(b) == [First(b)] + Buffered(Drop(b))
  {
    CounterStep(b.nread, b.nwrite);
    forall k | 0 <= k < Len(b) - 1 ensures Buffered(Drop(b))[k] == Buffered(b)[k + 1] { WrapIndex(b.nread + 1, k); }
  }

  /** pipewrite's loop appends exactly the bytes that fit. */
  lemma {:induction false} WriteLoopAppends(b: Buf, src: seq<Byte>)
    requires Len(b) <= PIPESIZE
    ensures var k, (b', rest) := Fits(Len(b), |src|), WriteLoop(b, src);
      rest == src[k..] && Len(b') == Len(b) + k && Buffered(b') == Buffered(b) + src[..k]
    decreases |src|
  {
    Tests(b);
    hide Len, Buffered, Full, Put;
    if src != [] && !Full(b) {
      var b1 := Put(b, src[0]);
      PutAppends(b, src[0]);
      WriteLoopAppends(b1, src[1..]);
      var j := Fits(Len(b1), |src| - 1);
      assert src[1..][j..] == src[j + 1..] && [src[0]] + src[1..][..j] == src[..j + 1];
      assert Buffered(b) + src[..j + 1] == (Buffered(b) + [src[0]]) + src[1..][..j];
    }
  }

  /** piperead's loop takes exactly the oldest bytes, as many as asked for and there. */
  lemma {:induction false} ReadLoopTakes(b: Buf, n: int)
    requires Len(b) <= PIPESIZE
    ensures var k, (b', got) := Takes(Len(b), n), ReadLoop(b, n);
      |got| == k && Len(b') == Len(b) - k && got + Buffered(b') == Buffered(b)
    decreases n
  {
    Tests(b);
    hide Len, Buffered, Empty, Drop, First;
    if n > 0 && !Empty(b) {
      DropTakes(b);
      ReadLoopTakes(Drop(b), n - 1);
      var (b', got) := ReadLoop(Drop(b), n - 1);
      assert ([First(b)] + got) + Buffered(b') == [First(b)] + (got + Buffered(b'));
    }
  }

  // ----- the code -----

  datatype WriteEnd = WriteDone | WriteSleeps | WriteFails

  datatype ReadEnd = ReadDone | ReadSleeps | ReadFails

  /** How a writer's stretch ends that has `rest` bytes left over. */
  function WriteResult(rest: seq<Byte>, readopen: bool, killed: bool): WriteEnd {
    if rest == [] then WriteDone else if !readopen || killed then WriteFails else WriteSleeps
  }

  function ReadResult(b: Buf, writeopen: bool, killed: bool): ReadEnd {
    if Empty(b) && writeopen then (if killed then ReadFails else ReadSleeps) else ReadDone
  }

  class Ring {
    var data: array<Byte>
    var nread: uint
    var nwrite: uint
    var readopen: bool
    var writeopen: bool

    ghost predicate Valid()
      reads this
    {
      data.Length == PIPESIZE
    }

    ghost function B(): Buf
      requires Valid()
      reads this, data
    {
      Buf(data[..], nread, nwrite)
    }

    /** pipealloc. */
    constructor ()
      ensures Valid() && fresh(data) && Buffered(B()) == [] && readopen && writeopen
    {
      data := new Byte[PIPESIZE](i => 0);
      nread, nwrite, readopen, writeopen := 0, 0, true, true;
    }

    /** p->data[p->nwrite++ % PIPESIZE] = x */
    method Store(x: Byte)
      requires Valid()
      modifies this`nwrite, data
      ensures Valid() && data == old(data) && B() == Put(old(B()), x)
    {
      data[nwrite % PIPESIZE] := x;
      nwrite := (nwrite + 1) % UINT;
    }

    /** p->data[p->nread++ % PIPESIZE] */
    method Fetch() returns (x: Byte)
      requires Valid()
      modifies this`nread
      ensures Valid() && x == First(old(B())) && B() == Drop(old(B()))
    {
      x := data[nread % PIPESIZE];
      nread := (nread + 1) % UINT;
    }

    /** A writer's stretch in pipewrite from byte i of addr on, with the lock held: the loop of
        WriteLoop, which appends the bytes that fit. */
    method WriteStretch(addr: seq<Byte>, i0: nat, killed: bool) returns (i: nat, r: WriteEnd, wokeReaders: bool)
      requires Valid() && i0 <= |addr|
      modifies this`nwrite, data
      ensures Valid() && data == old(data) && i0 <= i <= |addr|
      ensures (B(), addr[i..]) == WriteLoop(old(B()), addr[i0..])
      ensures r == WriteResult(addr[i..], readopen, killed)
      ensures wokeReaders <==> r != WriteFails
      ensures Len(old(B())) <= PIPESIZE ==>
        i == i0 + Fits(Len(old(B())), |addr| - i0) && Buffered(B()) == Buffered(old(B())) + addr[i0..i]
    {
      hide Len, Buffered, Put;
      i := i0;
      ghost var b := B();
      if Len(b) <= PIPESIZE { WriteLoopAppends(b, addr[i0..]); }
      while i < |addr|
        invariant i0 <= i <= |addr| && Valid() && data == old(data)
        invariant WriteLoop(B(), addr[i..]) == WriteLoop(b, addr[i0..])
      {
        if nwrite == (nread + PIPESIZE) % UINT {
          if !readopen || killed { return i, WriteFails, false; }
          return i, WriteSleeps, true;
        }
        Store(addr[i]);
        assert addr[i..][0] == addr[i] && addr[i..][1..] == addr[i + 1..];
        i := i + 1;
      }
      return i, WriteDone, true;
    }

    /** A reader's stretch in piperead for n bytes, with the lock held: the loop of ReadLoop, which
        takes the oldest bytes. */
    method ReadStretch(n: int, killed: bool) returns (got: seq<Byte>, r: ReadEnd, wokeWriters: bool)
      requires Valid()
      modifies this`nread
      ensures Valid()
      ensures r == ReadResult(old(B()), writeopen, killed)
      ensures (B(), got) == if r == ReadDone then ReadLoop(old(B()), n) else (old(B()), [])
      ensures wokeWriters <==> r == ReadDone
      ensures Len(old(B())) <= PIPESIZE ==> Buffered(old(B())) == got + Buffered(B())
    {
      hide Len, Buffered, Drop, First;
      got := [];
      ghost var b := B();
      if Len(b) <= PIPESIZE { ReadLoopTakes(b, n); }
      assert [] + ReadLoop(b, n).1 == ReadLoop(b, n).1;
      if nread == nwrite && writeopen {
        if killed { return [], ReadFails, false; }
        return [], ReadSleeps, false;
      }
      var i := 0;
      while i < n
        invariant i == |got| && (i <= n || i == 0) && Valid()
        invariant ReadLoop(b, n) == (ReadLoop(B(), n - i).0, got + ReadLoop(B(), n - i).1)
      {
        if nread == nwrite { break; }
        ghost var rest, got1 := ReadLoop(Drop(B()), n - i - 1), got;
        var x := Fetch();
        got := got + [x];
        i := i + 1;
        assert got + rest.1 == got1 + ([x] + rest.1);
      }
      assert got + [] == got;
      return got, ReadDone, true;
    }
  }

  // ----- any number of readers and writers -----

  type Pid = nat

  /** What a process is doing in the pipe code; asleep on &nwrite or &nread, or running. */
  datatype Job = Away | Writer(todo: seq<Byte>, asleep: bool) | Reader(want: int, asleep: bool)

  /** written: the bytes that writers have stored, in order.  taken: what readers have got out of the
      ring, in order. */
  datatype State = State(
    ring: Buf, readopen: bool, writeopen: bool,
    job: map<Pid, Job>,
    written: seq<Byte>, taken: seq<Byte>
  )

  /** The counters may start anywhere, as after long use. */
  predicate Init(s: State) {
    && Empty(s.ring) && s.written == [] && s.taken == [] && s.readopen && s.writeopen
    && forall p :: p in s.job ==> s.job[p] == Away
  }

  datatype Step =
    | StartWrite(p: Pid, bytes: seq<Byte>)
    | StartRead(p: Pid, want: int)
    | RunWriter(p: Pid, killed: bool)
    | RunReader(p: Pid, killed: bool)
    | CloseRead
    | CloseWrite
    | Kill(p: Pid)

  function WakeReaders(job: map<Pid, Job>): map<Pid, Job> {
    map p | p in job :: if job[p].Reader? then Reader(job[p].want, false) else job[p]
  }

  function WakeWriters(job: map<Pid, Job>): map<Pid, Job> {
    map p | p in job :: if job[p].Writer? then Writer(job[p].todo, false) else job[p]
  }

  predicate Enabled(s: State, t: Step) {
    match t
    case StartWrite(p, bytes) => p in s.job && s.job[p].Away?
    case StartRead(p, want) => p in s.job && s.job[p].Away?
    case RunWriter(p, killed) => p in s.job && s.job[p].Writer? && !s.job[p].asleep
    case RunReader(p, killed) => p in s.job && s.job[p].Reader? && !s.job[p].asleep
    case CloseRead => true
    case CloseWrite => true
    case Kill(p) => p in s.job && !s.job[p].Away?
  }

  /** RunWriter and RunReader are what Ring.WriteStretch and Ring.ReadStretch do. */
  function Next(s: State, t: Step): State
    requires Enabled(s, t)
  {
    match t
    case StartWrite(p, bytes) => s.(job := s.job[p := Writer(bytes, false)])
    case StartRead(p, want) => s.(job := s.job[p := Reader(want, false)])
    case RunWriter(p, killed) => AfterWriter(s, p, killed)
    case RunReader(p, killed) => AfterReader(s, p, killed)
    case CloseRead => s.(readopen := false, job := WakeWriters(s.job))
    case CloseWrite => s.(writeopen := false, job := WakeReaders(s.job))
    case Kill(p) =>
      s.(job := s.job[p := if s.job[p].Writer? then Writer(s.job[p].todo, false) else Reader(s.job[p].want, false)])
  }

  function AfterWriter(s: State, p: Pid, killed: bool): State
    requires Enabled(s, RunWriter(p, killed))
  {
    var todo := s.job[p].todo;
    var (ring, rest) := WriteLoop(s.ring, todo);
    var r := WriteResult(rest, s.readopen, killed);
    var job := s.job[p := if r == WriteSleeps then Writer(rest, true) else Away];
    s.(ring := ring, written := s.written + todo[..|todo| - |rest|],
       job := if r == WriteFails then job else WakeReaders(job))
  }

  function AfterReader(s: State, p: Pid, killed: bool): State
    requires Enabled(s, RunReader(p, killed))
  {
    var r := ReadResult(s.ring, s.writeopen, killed);
    if r == ReadDone then
      var (ring, got) := ReadLoop(s.ring, s.job[p].want);
      s.(ring := ring, taken := s.taken + got, job := WakeWriters(s.job[p := Away]))
    else if r == ReadFails then s.(job := s.job[p := Away])
    else s.(job := s.job[p := Reader(s.job[p].want, true)])
  }

  /** The counters are at most PIPESIZE apart, what was read and what is in the ring is what was
      written, and a sleeping writer has a full pipe that may still be read. */
  ghost predicate Inv(s: State) {
    && Len(s.ring) <= PIPESIZE
    && s.written == s.taken + Buffered(s.ring)
    && (forall p :: p in s.job && s.job[p].Writer? && s.job[p].asleep ==> Len(s.ring) == PIPESIZE && s.readopen)
  }

  lemma WriterInv(s: State, p: Pid, killed: bool)
    requires Inv(s) && Enabled(s, RunWriter(p, killed))
    ensures Inv(Next(s, RunWriter(p, killed)))
  {
    var s', todo := Next(s, RunWriter(p, killed)), s.job[p].todo;
    WriteLoopAppends(s.ring, todo);
    hide Len, Buffered, WriteLoop;
    var k := Fits(Len(s.ring), |todo|);
    assert s'.written == s.written + todo[..k];
    assert s.taken + (Buffered(s.ring) + todo[..k]) == s'.written;
  }

  lemma ReaderInv(s: State, p: Pid, killed: bool)
    requires Inv(s) && Enabled(s, RunReader(p, killed))
    ensures Inv(Next(s, RunReader(p, killed)))
  {
    ReadLoopTakes(s.ring, s.job[p].want);
    hide Len, Buffered, ReadLoop, Empty;
    var (ring, got) := ReadLoop(s.ring, s.job[p].want);
    assert (s.taken + got) + Buffered(ring) == s.taken + (got + Buffered(ring));
  }

  lemma NextInv(s: State, t: Step)
    requires Inv(s) && Enabled(s, t)
    ensures Inv(Next(s, t))
  {
    hide AfterWriter, AfterReader, Len, Buffered;
    match t
    case RunWriter(p, killed) => WriterInv(s, p, killed);
    case RunReader(p, killed) => ReaderInv(s, p, killed);
    case _ =>
  }

  ghost predicate Run(ss: seq<State>, ts: seq<Step>) {
    && |ss| == |ts| + 1 && Init(ss[0])
    && forall i :: 0 <= i < |ts| ==> Enabled(ss[i], ts[i]) && ss[i + 1] == Next(ss[i], ts[i])
  }

  lemma {:induction false} RunInv(ss: seq<State>, ts: seq<Step>, i: nat)
    requires Run(ss, ts) && i < |ss|
    ensures Inv(ss[i])
  {
    if i == 0 {
      Tests(ss[0].ring);
      assert Buffered(ss[0].ring) == [];
    } else {
      RunInv(ss, ts, i - 1);
      NextInv(ss[i - 1], ts[i - 1]);
    }
  }

  /** FIFO through the ring: in every run, wherever the counters started and however often they
      wrapped, the bytes read, followed by those in the ring, are the bytes written, in order,
      and nwrite - nread stays within 0..PIPESIZE. */
  lemma PipeIsFifo(ss: seq<State>, ts: seq<Step>, i: nat)
    requires Run(ss, ts) && i < |ss|
    ensures ss[i].taken + Buffered(ss[i].ring) == ss[i].written && Len(ss[i].ring) <= PIPESIZE
  {
    RunInv(ss, ts, i);
  }

  // ----- what a call comes to -----

  /** What p was last asked to write. */
  function Asked(ts: seq<Step>, p: Pid): seq<Byte> {
    if ts == [] then []
    else
      var t := ts[|ts| - 1];
      if t.StartWrite? && t.p == p then t.bytes else Asked(ts[..|ts| - 1], p)
  }

  /** How many bytes p last asked to read. */
  function Wanted(ts: seq<Step>, p: Pid): int {
    if ts == [] then 0
    else
      var t := ts[|ts| - 1];
      if t.StartRead? && t.p == p then t.want else Wanted(ts[..|ts| - 1], p)
  }

  /** What the i-th step added to the bytes written. */
  function Added(ss: seq<State>, i: nat): seq<Byte>
    requires i + 1 < |ss|
  {
    var n := |ss[i].written|;
    if n <= |ss[i + 1].written| then ss[i + 1].written[n..] else []
  }

  /** What p's steps have added since p was last asked, within the first i steps. */
  function Stored(ss: seq<State>, ts: seq<Step>, i: nat, p: Pid): seq<Byte>
    requires i <= |ts| < |ss|
  {
    if i == 0 then []
    else if ts[i - 1].StartWrite? && ts[i - 1].p == p then []
    else Stored(ss, ts, i - 1, p) + if ts[i - 1].RunWriter? && ts[i - 1].p == p then Added(ss, i - 1) else []
  }

  lemma AskedNext(ts: seq<Step>, i: nat, p: Pid)
    requires i < |ts|
    ensures Asked(ts[..i + 1], p) == if ts[i].StartWrite? && ts[i].p == p then ts[i].bytes else Asked(ts[..i], p)
    ensures Wanted(ts[..i + 1], p) == if ts[i].StartRead? && ts[i].p == p then ts[i].want else Wanted(ts[..i], p)
  {
    assert ts[..i + 1][..i] == ts[..i];
  }

  /** How a writer's stretch leaves it: through, out for good, or asleep with the rest to do. */
  lemma WriterStep(s: State, p: Pid, killed: bool)
    requires Inv(s) && Enabled(s, RunWriter(p, killed))
    ensures var s', todo := Next(s, RunWriter(p, killed)), s.job[p].todo;
      var k := Fits(Len(s.ring), |todo|);
      && p in s'.job && s'.written == s.written + todo[..k]
      && s'.job[p] == (if k == |todo| || !s.readopen || killed then Away else Writer(todo[k..], true))
      && (k < |todo| ==> Len(s'.ring) == PIPESIZE)
  {
    WriteLoopAppends(s.ring, s.job[p].todo);
    hide Len, Buffered, WriteLoop;
  }

  lemma ReaderStep(s: State, p: Pid, killed: bool)
    requires Inv(s) && Enabled(s, RunReader(p, killed))
    ensures var s', want := Next(s, RunReader(p, killed)), s.job[p].want;
      && p in s'.job
      && (if Len(s.ring) > 0 || !s.writeopen then
            s'.job[p] == Away && s'.taken == s.taken + Buffered(s.ring)[..Takes(Len(s.ring), want)]
          else s'.taken == s.taken && s'.job[p] == if killed then Away else Reader(want, true))
  {
    ReadLoopTakes(s.ring, s.job[p].want);
    Tests(s.ring);
    hide Len, Buffered, ReadLoop, Empty;
    var (ring, got) := ReadLoop(s.ring, s.job[p].want);
    assert (got + Buffered(ring))[..|got|] == got;
  }

  /** The steps of others leave a process in its call, with what it has left to do. */
  lemma OtherStep(s: State, t: Step, p: Pid)
    requires Enabled(s, t) && p in s.job && !((t.StartWrite? || t.StartRead? || t.RunWriter? || t.RunReader?) && t.p == p)
    ensures p in Next(s, t).job && (s.job[p].Away? ==> Next(s, t).job[p].Away?)
    ensures s.job[p].Writer? ==> Next(s, t).job[p].Writer? && Next(s, t).job[p].todo == s.job[p].todo
    ensures s.job[p].Reader? ==> Next(s, t).job[p].Reader? && Next(s, t).job[p].want == s.job[p].want
  {
    hide WriteLoop, ReadLoop;
  }

  ghost predicate Kept(ss: seq<State>, ts: seq<Step>, i: nat, p: Pid)
    requires i <= |ts| < |ss|
  {
    p in ss[i].job ==>
      && (ss[i].job[p].Writer? ==> Stored(ss, ts, i, p) + ss[i].job[p].todo == Asked(ts[..i], p))
      && (ss[i].job[p].Reader? ==> ss[i].job[p].want == Wanted(ts[..i], p))
  }

  lemma OwnKept(ss: seq<State>, ts: seq<Step>, i: nat, p: Pid)
    requires i < |ts| < |ss| && Inv(ss[i]) && Enabled(ss[i], ts[i]) && ss[i + 1] == Next(ss[i], ts[i]) && Kept(ss, ts, i, p)
    requires (ts[i].RunWriter? || ts[i].RunReader?) && ts[i].p == p
    ensures Kept(ss, ts, i + 1, p)
  {
    AskedNext(ts, i, p);
    if ts[i].RunWriter? {
      WriterStep(ss[i], p, ts[i].killed);
      WriterKept(ss, ts, i, p);
    } else {
      ReaderStep(ss[i], p, ts[i].killed);
    }
    hide Next, Inv, Asked, Wanted, Stored, Len, Buffered;
  }

  lemma OtherKept(ss: seq<State>, ts: seq<Step>, i: nat, p: Pid)
    requires i < |ts| < |ss| && Enabled(ss[i], ts[i]) && ss[i + 1] == Next(ss[i], ts[i]) && Kept(ss, ts, i, p) && p in ss[i].job
    requires !((ts[i].StartWrite? || ts[i].StartRead? || ts[i].RunWriter? || ts[i].RunReader?) && ts[i].p == p)
    ensures Kept(ss, ts, i + 1, p)
  {
    AskedNext(ts, i, p);
    OtherStep(ss[i], ts[i], p);
    assert Stored(ss, ts, i + 1, p) == Stored(ss, ts, i, p) + [];
    hide Next, Asked, Wanted, Stored;
  }

  /** In every run, what a writer has stored since it was asked, followed by what it has left to do, is what
      it was asked to write; and a reader still wants as many bytes as it asked for. */
  lemma {:induction false} CallKept(ss: seq<State>, ts: seq<Step>, i: nat, p: Pid)
    requires Run(ss, ts) && i < |ss|
    ensures p in ss[i].job && ss[i].job[p].Writer? ==> Stored(ss, ts, i, p) + ss[i].job[p].todo == Asked(ts[..i], p)
    ensures p in ss[i].job && ss[i].job[p].Reader? ==> ss[i].job[p].want == Wanted(ts[..i], p)
  {
    if i > 0 {
      var j := i - 1;
      var s, t := ss[j], ts[j];
      RunInv(ss, ts, j);
      CallKept(ss, ts, j, p);
      assert Kept(ss, ts, j, p);
      SamePids(s, t);
      AskedNext(ts, j, p);
      if p !in s.job {
      } else if (t.RunWriter? || t.RunReader?) && t.p == p {
        OwnKept(ss, ts, j, p);
      } else if (t.StartWrite? || t.StartRead?) && t.p == p {
        assert Kept(ss, ts, i, p);
      } else {
        OtherKept(ss, ts, j, p);
      }
      hide Next, Inv, Asked, Wanted, Stored;
    }
  }

  lemma SamePids(s: State, t: Step)
    requires Enabled(s, t)
    ensures Next(s, t).job.Keys == s.job.Keys
  {
    hide WriteLoop, ReadLoop;
  }

  /** A stretch moves the bytes it stores from what is left to do to what is stored. */
  lemma WriterKept(ss: seq<State>, ts: seq<Step>, i: nat, p: Pid)
    requires i < |ts| < |ss| && ts[i].RunWriter? && ts[i].p == p && p in ss[i].job && ss[i].job[p].Writer?
    requires Len(ss[i].ring) <= PIPESIZE
    requires var todo := ss[i].job[p].todo; ss[i + 1].written == ss[i].written + todo[..Fits(Len(ss[i].ring), |todo|)]
    ensures var todo := ss[i].job[p].todo;
      var k := Fits(Len(ss[i].ring), |todo|);
      && Added(ss, i) == todo[..k] && Stored(ss, ts, i + 1, p) == Stored(ss, ts, i, p) + todo[..k]
      && Stored(ss, ts, i + 1, p) + todo[k..] == Stored(ss, ts, i, p) + todo
  {
    var todo := ss[i].job[p].todo;
    var k := Fits(Len(ss[i].ring), |todo|);
    assert todo == todo[..k] + todo[k..];
  }

  /** How pipewrite ends, in every run.  It leaves with all of its bytes stored, in order; or, with the pipe
      full and the read end closed or the process killed, with a proper prefix of them; otherwise it sleeps
      beside a full pipe. */
  lemma WriteEnds(ss: seq<State>, ts: seq<Step>, i: nat)
    requires Run(ss, ts) && i < |ts| && ts[i].RunWriter?
    ensures var p, s, s' := ts[i].p, ss[i], ss[i + 1];
      var asked, stored := Asked(ts[..i], p), Stored(ss, ts, i + 1, p);
      && p in s'.job && stored <= asked && s'.written == s.written + Added(ss, i)
      && (s'.job[p].Away? <==> stored == asked || !s.readopen || ts[i].killed)
      && (stored != asked ==> Len(s'.ring) == PIPESIZE)
      && (!s'.job[p].Away? ==> s'.job[p] == Writer(asked[|stored|..], true))
  {
    var p, s, s' := ts[i].p, ss[i], ss[i + 1];
    RunInv(ss, ts, i);
    CallKept(ss, ts, i, p);
    WriterStep(s, p, ts[i].killed);
    WriterKept(ss, ts, i, p);
    hide Next, Inv, Asked, Stored, Buffered, Len;
    var asked, stored, todo := Asked(ts[..i], p), Stored(ss, ts, i + 1, p), s.job[p].todo;
    var k := Fits(Len(s.ring), |todo|);
    assert asked == stored + todo[k..];
    assert asked[|stored|..] == todo[k..];
  }

  /** How piperead ends, in every run.  With bytes in the pipe or the write end closed it takes the oldest
      bytes, as many as asked for and there, which may be none; otherwise it sleeps, or gives up if killed. */
  lemma ReadEnds(ss: seq<State>, ts: seq<Step>, i: nat)
    requires Run(ss, ts) && i < |ts| && ts[i].RunReader?
    ensures var p, s, s', want := ts[i].p, ss[i], ss[i + 1], Wanted(ts[..i], ts[i].p);
      && p in s'.job
      && (if Len(s.ring) > 0 || !s.writeopen then
            s'.job[p] == Away && s'.taken == s.taken + Buffered(s.ring)[..Takes(Len(s.ring), want)]
          else s'.taken == s.taken && s'.job[p] == if ts[i].killed then Away else Reader(want, true))
  {
    RunInv(ss, ts, i);
    CallKept(ss, ts, i, ts[i].p);
    ReaderStep(ss[i], ts[i].p, ts[i].killed);
  }

  // ----- who sleeps -----

  ghost predicate ReaderAsleep(s: State, q: Pid) { q in s.job && s.job[q].Reader? && s.job[q].asleep }

  ghost predicate WriterAsleep(s: State, p: Pid) { p in s.job && s.job[p].Writer? && s.job[p].asleep }

  /** A sleeping reader has an empty pipe that may still be written. */
  ghost predicate ReadersOk(s: State) {
    forall q :: ReaderAsleep(s, q) ==> Len(s.ring) == 0 && s.writeopen
  }

  /** A writer adds bytes, fills the pipe and gives up in one stretch, which wakes nobody, while a
      reader is asleep. */
  ghost predicate Strands(s: State, t: Step) {
    && t.RunWriter? && t.p in s.job && s.job[t.p].Writer?
    && Len(s.ring) < PIPESIZE < Len(s.ring) + |s.job[t.p].todo|
    && (!s.readopen || t.killed)
    && exists q :: ReaderAsleep(s, q)
  }

  lemma WriterStrands(s: State, p: Pid, killed: bool)
    requires Inv(s) && ReadersOk(s) && Enabled(s, RunWriter(p, killed))
    ensures ReadersOk(Next(s, RunWriter(p, killed))) <==> !Strands(s, RunWriter(p, killed))
  {
    var s', todo := Next(s, RunWriter(p, killed)), s.job[p].todo;
    WriteLoopAppends(s.ring, todo);
    hide Len, Buffered, WriteLoop;
    var r := WriteResult(WriteLoop(s.ring, todo).1, s.readopen, killed);
    forall q | q != p && ReaderAsleep(s, q) ensures ReaderAsleep(s', q) || r != WriteFails {}
    assert forall q :: ReaderAsleep(s', q) ==> ReaderAsleep(s, q);
    if Strands(s, RunWriter(p, killed)) {
      var q :| ReaderAsleep(s, q);
      assert ReaderAsleep(s', q);
    }
  }

  lemma ReaderKeeps(s: State, p: Pid, killed: bool)
    requires Inv(s) && ReadersOk(s) && Enabled(s, RunReader(p, killed))
    ensures ReadersOk(Next(s, RunReader(p, killed)))
  {
    var s' := Next(s, RunReader(p, killed));
    ReadLoopTakes(s.ring, s.job[p].want);
    Tests(s.ring);
    hide Len, Buffered, ReadLoop, Empty;
    assert forall q :: ReaderAsleep(s', q) && q != p ==> ReaderAsleep(s, q);
  }

  /** A step leaves a reader asleep without reason exactly if it strands one. */
  lemma StrandsExactly(s: State, t: Step)
    requires Inv(s) && ReadersOk(s) && Enabled(s, t)
    ensures ReadersOk(Next(s, t)) <==> !Strands(s, t)
  {
    match t
    case RunWriter(p, killed) => WriterStrands(s, p, killed);
    case RunReader(p, killed) => ReaderKeeps(s, p, killed);
    case _ =>
      hide Len;
      assert forall q :: ReaderAsleep(Next(s, t), q) ==> ReaderAsleep(s, q);
  }

  /** The next stretch of a writer that does not give up, or the close of the write end, wakes the
      stranded readers. */
  lemma StrandingEnds(s: State, t: Step)
    requires Enabled(s, t)
    requires t.CloseWrite? || (t.RunWriter? && s.readopen && !t.killed)
    ensures forall q :: !ReaderAsleep(Next(s, t), q)
  {
    hide WriteLoop;
  }

  lemma {:induction false} RunReadersOk(ss: seq<State>, ts: seq<Step>, i: nat)
    requires Run(ss, ts) && i < |ss| && forall k :: 0 <= k < i ==> !Strands(ss[k], ts[k])
    ensures ReadersOk(ss[i])
  {
    if i > 0 {
      RunReadersOk(ss, ts, i - 1);
      RunInv(ss, ts, i - 1);
      hide Inv, ReadersOk, Strands, Next;
      StrandsExactly(ss[i - 1], ts[i - 1]);
    }
  }

  /** In every run a sleeping writer has a full pipe with an open read end; as long as no step has
      stranded a reader, a sleeping reader has an empty pipe with an open write end, and readers and
      writers never wait for each other. */
  lemma NoStuckSleepers(ss: seq<State>, ts: seq<Step>, i: nat, p: Pid, q: Pid)
    requires Run(ss, ts) && i < |ss|
    ensures WriterAsleep(ss[i], p) ==> Len(ss[i].ring) == PIPESIZE && ss[i].readopen
    ensures (forall k :: 0 <= k < i ==> !Strands(ss[k], ts[k])) ==>
      && (ReaderAsleep(ss[i], q) ==> Len(ss[i].ring) == 0 && ss[i].writeopen)
      && !(WriterAsleep(ss[i], p) && ReaderAsleep(ss[i], q))
  {
    RunInv(ss, ts, i);
    if forall k :: 0 <= k < i ==> !Strands(ss[k], ts[k]) { RunReadersOk(ss, ts, i); }
  }

  /** A run that strands a reader: it sleeps beside PIPESIZE bytes after a writer was killed. */
  lemma StrandedReader(ring: Buf, bytes: seq<Byte>) returns (ss: seq<State>, ts: seq<Step>)
    requires Empty(ring) && |bytes| > PIPESIZE
    ensures Run(ss, ts) && |ss| == 5
    ensures ReaderAsleep(ss[4], 0) && Len(ss[4].ring) == PIPESIZE && ss[4].writeopen
  {
    Tests(ring);
    WriteLoopAppends(ring, bytes);
    hide Len, Buffered, WriteLoop;
    ts := [StartRead(0, 1), RunReader(0, false), StartWrite(1, bytes), RunWriter(1, true)];
    var s0 := State(ring, true, true, map[0 := Away, 1 := Away], [], []);
    var s1 := Next(s0, ts[0]);
    var s2 := Next(s1, ts[1]);
    var s3 := Next(s2, ts[2]);
    var s4 := Next(s3, ts[3]);
    ss := [s0, s1, s2, s3, s4];
  }
}
