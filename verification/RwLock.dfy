/** The readers-writer lock of proc.c over two FIFO semaphores (Semaphore.Fifo), as a transition
system over all processes.  `lk` guards the reader count; the first reader in takes
`writelock` for all readers and the last one out, whoever it is, releases it. */
module RwLock {
  import opened Types
  import opened Semaphore

  /** Where a process is; "lk" marks those between a passed xem_wait(lk) and its xem_unlock. */
  datatype Pc =
    | Out
    | ReadWaitLk      // asleep in acquire_readlock's xem_wait(lk)
    | ReadCount       // lk: before readers++
    | ReadTakeWl      // lk: first reader, before xem_wait(writelock)
    | ReadWaitWl      // lk: asleep in xem_wait(writelock)
    | ReadLeaveLk     // lk: before xem_unlock(lk)
    | Reading
    | DoneWaitLk      // asleep in release_readlock's xem_wait(lk)
    | DoneCount       // lk: before readers--
    | DoneGiveWl      // lk: last reader, before xem_unlock(writelock)
    | DoneLeaveLk     // lk: before xem_unlock(lk)
    | WriteWaitWl     // asleep in acquire_writelock's xem_wait(writelock)
    | Writing

  /** Who has the writelock: nobody, the readers together, or a writer. */
  datatype Owner = Free | Readers | Writer(p: Pid)

  /** lkOwner and wlOwner are kept beside the two semaphores to say who was admitted last. */
  datatype State = State(
    lk: Fifo, wl: Fifo, readers: int,
    pc: map<Pid, Pc>,
    lkOwner: Option<Pid>, wlOwner: Owner
  )

  predicate Init(s: State) {
    && s.lk == Fifo(1, []) && s.wl == Fifo(1, []) && s.readers == 0
    && s.lkOwner == None && s.wlOwner == Free
    && forall p :: p in s.pc ==> s.pc[p] == Out
  }

  predicate InLk(c: Pc) {
    (c.ReadCount? || c.ReadTakeWl? || c.ReadWaitWl? || c.ReadLeaveLk? || c.DoneCount? || c.DoneGiveWl? || c.DoneLeaveLk?)
  }

  /** Included in readers. */
  predicate Counted(c: Pc) {
    (c.ReadTakeWl? || c.ReadWaitWl? || c.ReadLeaveLk? || c.Reading? || c.DoneWaitLk? || c.DoneCount?)
  }

  predicate WaitsLk(c: Pc) { (c.ReadWaitLk? || c.DoneWaitLk?) }

  predicate WaitsWl(c: Pc) { (c.ReadWaitWl? || c.WriteWaitWl?) }

  predicate Blocked(c: Pc) { WaitsLk(c) || WaitsWl(c) }

  // ----- steps -----

  function Go(s: State, p: Pid, c: Pc): State { s.(pc := s.pc[p := c]) }

  /** xem_wait(lk) by p, which goes on at `on` and sleeps at `sleep`. */
  function WaitLk(s: State, p: Pid, sleep: Pc, on: Pc): State {
    var s1 := s.(lk := FifoWait(s.lk, p));
    if s1.lk.value < 0 then Go(s1, p, sleep) else Go(s1, p, on).(lkOwner := Some(p))
  }

  /** xem_unlock(lk): the oldest waiter goes on with lk. */
  function UnlockLk(s: State): State {
    var s1 := s.(lk := FifoUnlock(s.lk));
    if s1.lk.value <= 0 && s.lk.queue != [] then
      var q := s.lk.queue[0];
      Go(s1, q, if q in s.pc && s.pc[q] == DoneWaitLk then DoneCount else ReadCount).(lkOwner := Some(q))
    else s1.(lkOwner := None)
  }

  function WaitWl(s: State, p: Pid, sleep: Pc, on: Pc, owner: Owner): State {
    var s1 := s.(wl := FifoWait(s.wl, p));
    if s1.wl.value < 0 then Go(s1, p, sleep) else Go(s1, p, on).(wlOwner := owner)
  }

  /** xem_unlock(writelock): the oldest waiter, a reader for all readers or a writer, gets it. */
  function UnlockWl(s: State): State {
    var s1 := s.(wl := FifoUnlock(s.wl));
    if s1.wl.value <= 0 && s.wl.queue != [] then
      var q := s.wl.queue[0];
      if q in s.pc && s.pc[q] == WriteWaitWl then Go(s1, q, Writing).(wlOwner := Writer(q))
      else Go(s1, q, ReadLeaveLk).(wlOwner := Readers)
    else s1.(wlOwner := Free)
  }

  /** Process p moves; an idle process chooses to read or to write. */
  ghost predicate Next(s: State, s': State, p: Pid) {
    && p in s.pc
    && match s.pc[p]
       case Out => s' == WaitLk(s, p, ReadWaitLk, ReadCount) || s' == WaitWl(s, p, WriteWaitWl, Writing, Writer(p))
       case ReadCount =>
         s' == Go(s, p, if s.readers + 1 == 1 then ReadTakeWl else ReadLeaveLk).(readers := s.readers + 1)
       case ReadTakeWl => s' == WaitWl(s, p, ReadWaitWl, ReadLeaveLk, Readers)
       case ReadLeaveLk => s' == UnlockLk(Go(s, p, Reading))
       case Reading => s' == WaitLk(s, p, DoneWaitLk, DoneCount)
       case DoneCount =>
         s' == Go(s, p, if s.readers - 1 == 0 then DoneGiveWl else DoneLeaveLk).(readers := s.readers - 1)
       case DoneGiveWl => s' == UnlockWl(Go(s, p, DoneLeaveLk))
       case DoneLeaveLk => s' == UnlockLk(Go(s, p, Out))
       case Writing => s' == UnlockWl(Go(s, p, Out))
       case _ => false
  }

  // ----- the invariant -----

  function CountedSet(pc: map<Pid, Pc>): set<Pid> { set p | p in pc && Counted(pc[p]) }

  /** lk admits one process at a time and queues the rest. */
  ghost predicate LkOk(s: State) {
    && s.lk.value == (if s.lkOwner.None? then 1 else -|s.lk.queue|)
    && (s.lkOwner.None? ==> s.lk.queue == [])
    && (forall p :: p in s.pc && InLk(s.pc[p]) <==> s.lkOwner == Some(p))
    && NoDup(s.lk.queue)
    && (forall p :: p in s.pc && WaitsLk(s.pc[p]) <==> p in s.lk.queue)
  }

  /** writelock belongs to nobody, to one writer, or to the readers together. */
  ghost predicate WlOk(s: State) {
    && s.wl.value == (if s.wlOwner.Free? then 1 else -|s.wl.queue|)
    && (s.wlOwner.Free? ==> s.wl.queue == [])
    && (forall p :: p in s.pc && s.pc[p] == Writing <==> s.wlOwner == Writer(p))
    && NoDup(s.wl.queue)
    && (forall p :: p in s.pc && WaitsWl(s.pc[p]) <==> p in s.wl.queue)
  }

  /** The readers have writelock when some are counted and the first of them has got it, or when
      the last one has left the count and not yet given it back. */
  ghost predicate ReadersHold(s: State) {
    || (s.lkOwner.Some? && s.lkOwner.value in s.pc && s.pc[s.lkOwner.value] == DoneGiveWl)
    || (s.readers > 0 &&
        !(s.lkOwner.Some? && s.lkOwner.value in s.pc && (s.pc[s.lkOwner.value].ReadTakeWl? || s.pc[s.lkOwner.value].ReadWaitWl?)))
  }

  ghost predicate CountOk(s: State) {
    && s.readers == |CountedSet(s.pc)|
    && (s.wlOwner == Readers <==> ReadersHold(s))
    && (forall p :: p in s.pc && (s.pc[p].ReadTakeWl? || s.pc[p].ReadWaitWl?) ==> s.readers == 1)
    && (forall p :: p in s.pc && s.pc[p] == DoneGiveWl ==> s.readers == 0)
  }

  ghost predicate Inv(s: State) {
    LkOk(s) && WlOk(s) && CountOk(s)
  }

  lemma InitInv(s: State)
    requires Init(s)
    ensures Inv(s)
  {
    assert CountedSet(s.pc) == {};
  }

  // ----- the semaphores under their operations -----

  /** Processes that neither enter nor leave lk or its queue leave it in order. */
  lemma LkFrame(s: State, s': State)
    requires LkOk(s) && s'.lk == s.lk && s'.lkOwner == s.lkOwner && s'.pc.Keys == s.pc.Keys
    requires forall p :: p in s.pc ==> (InLk(s'.pc[p]) <==> InLk(s.pc[p])) && (WaitsLk(s'.pc[p]) <==> WaitsLk(s.pc[p]))
    ensures LkOk(s')
  {
  }

  lemma WlFrame(s: State, s': State)
    requires WlOk(s) && s'.wl == s.wl && s'.wlOwner == s.wlOwner && s'.pc.Keys == s.pc.Keys
    requires forall p :: p in s.pc ==>
      (s'.pc[p] == Writing <==> s.pc[p] == Writing) && (WaitsWl(s'.pc[p]) <==> WaitsWl(s.pc[p]))
    ensures WlOk(s')
  {
  }

  lemma WaitLkOk(s: State, p: Pid, sleep: Pc, on: Pc)
    requires LkOk(s) && p in s.pc && !InLk(s.pc[p]) && !WaitsLk(s.pc[p])
    requires WaitsLk(sleep) && !InLk(sleep) && InLk(on) && !WaitsLk(on)
    ensures LkOk(WaitLk(s, p, sleep, on))
  {
  }

  /** p has just left lk, which is still marked as its own. */
  lemma UnlockLkOk(s: State, p: Pid, c: Pc)
    requires LkOk(s) && p in s.pc && s.lkOwner == Some(p) && !InLk(c) && !WaitsLk(c)
    ensures LkOk(UnlockLk(Go(s, p, c)))
  {
    var q := s.lk.queue;
    if q != [] { Tail(q); }
  }

  lemma WaitWlOk(s: State, p: Pid, sleep: Pc, on: Pc, owner: Owner)
    requires WlOk(s) && p in s.pc && s.pc[p] != Writing && !WaitsWl(s.pc[p])
    requires WaitsWl(sleep) && !WaitsWl(on) && !owner.Free?
    requires if on == Writing then owner == Writer(p) else owner == Readers
    ensures WlOk(WaitWl(s, p, sleep, on, owner))
  {
  }

  lemma UnlockWlOk(s: State, p: Pid, c: Pc)
    requires WlOk(s) && p in s.pc && (s.pc[p] == Writing || s.wlOwner == Readers) && !s.wlOwner.Free?
    requires !WaitsWl(s.pc[p]) && !WaitsWl(c) && c != Writing
    ensures WlOk(UnlockWl(Go(s, p, c)))
  {
    var q := s.wl.queue;
    if q != [] { Tail(q); }
  }

  // ----- every step keeps the invariant -----

  /** A process in lk is its owner. */
  ghost predicate OwnerOf(s: State) {
    forall p :: p in s.pc && InLk(s.pc[p]) <==> s.lkOwner == Some(p)
  }

  /** The count stays in order when nobody enters or leaves it and the readers' hold is as it was. */
  lemma CountFrame(s: State, s': State)
    requires CountOk(s) && s'.readers == s.readers && s'.pc.Keys == s.pc.Keys
    requires forall p :: p in s.pc ==> (Counted(s'.pc[p]) <==> Counted(s.pc[p]))
    requires forall p :: p in s.pc && (s'.pc[p].ReadTakeWl? || s'.pc[p].ReadWaitWl? || s'.pc[p].DoneGiveWl?) ==>
      s.pc[p] == s'.pc[p] || (s.pc[p] == ReadTakeWl && s'.pc[p] == ReadWaitWl)
    requires (s'.wlOwner == Readers <==> s.wlOwner == Readers) && (ReadersHold(s') <==> ReadersHold(s))
    ensures CountOk(s')
  {
    assert CountedSet(s'.pc) == CountedSet(s.pc);
  }

  lemma WaitLkInv(s: State, s': State, p: Pid, sleep: Pc, on: Pc)
    requires Inv(s) && p in s.pc && s' == WaitLk(s, p, sleep, on)
    requires (s.pc[p] == Out && sleep == ReadWaitLk && on == ReadCount) ||
             (s.pc[p] == Reading && sleep == DoneWaitLk && on == DoneCount)
    ensures Inv(s')
  {
    hide WlOk, CountOk;
    WaitLkOk(s, p, sleep, on);
    assert s.lkOwner.None? ==> s'.pc[p] == on;
    assert s.lkOwner.Some? ==> s'.pc[p] == sleep;
    hide LkOk;
    WlFrame(s, s');
    WaitLkCount(s, s', p, sleep, on);
  }

  lemma WaitLkCount(s: State, s': State, p: Pid, sleep: Pc, on: Pc)
    requires CountOk(s) && p in s.pc && s' == WaitLk(s, p, sleep, on) && s'.pc[p] == (if s.lkOwner.Some? then sleep else on)
    requires (s.pc[p] == Out && sleep == ReadWaitLk && on == ReadCount) ||
             (s.pc[p] == Reading && sleep == DoneWaitLk && on == DoneCount)
    requires s.lkOwner != Some(p)
    ensures CountOk(s')
  {
    hide CountOk;
    CountFrame(s, s');
  }

  /** A writer coming leaves lk and the count in order. */
  lemma WriteRest(s: State, s': State, p: Pid)
    requires LkOk(s) && CountOk(s) && p in s.pc && s.pc[p] == Out
    requires s' == WaitWl(s, p, WriteWaitWl, Writing, Writer(p)) && (s'.wlOwner == s.wlOwner || s.wlOwner.Free?)
    ensures LkOk(s') && CountOk(s')
  {
    LkFrame(s, s');
    hide LkOk;
    CountFrame(s, s');
  }

  lemma WriteInv(s: State, s': State, p: Pid)
    requires Inv(s) && p in s.pc && s.pc[p] == Out && s' == WaitWl(s, p, WriteWaitWl, Writing, Writer(p))
    ensures Inv(s')
  {
    hide LkOk, CountOk;
    WaitWlOk(s, p, WriteWaitWl, Writing, Writer(p));
    WriteRest(s, s', p);
  }

  lemma ReadCountInv(s: State, s': State, p: Pid)
    requires Inv(s) && p in s.pc && s.pc[p] == ReadCount && Next(s, s', p)
    ensures Inv(s')
  {
    ReadCountCount(s, s', p);
    hide LkOk, WlOk, CountOk;
    LkFrame(s, s');
    WlFrame(s, s');
  }

  /** A reader that holds lk joins the count; the first one has writelock still to take. */
  lemma ReadCountCount(s: State, s': State, p: Pid)
    requires CountOk(s) && OwnerOf(s) && p in s.pc && s.pc[p] == ReadCount && Next(s, s', p)
    ensures CountOk(s')
  {
    assert s.lkOwner == Some(p);
    assert CountedSet(s'.pc) == CountedSet(s.pc) + {p};
  }

  lemma TakeWlInv(s: State, s': State, p: Pid)
    requires Inv(s) && p in s.pc && s.pc[p] == ReadTakeWl && Next(s, s', p)
    ensures Inv(s')
  {
    WaitWlOk(s, p, ReadWaitWl, ReadLeaveLk, Readers);
    LkFrame(s, s');
    assert CountedSet(s'.pc) == CountedSet(s.pc);
  }

  /** Passing lk on leaves writelock in order. */
  lemma LeaveLkWl(s: State, s': State, p: Pid, c: Pc)
    requires WlOk(s) && p in s.pc && s.lkOwner == Some(p)
    requires (s.pc[p] == ReadLeaveLk && c == Reading) || (s.pc[p] == DoneLeaveLk && c == Out)
    requires s.lk.queue != [] ==> s.lk.queue[0] != p && s.lk.queue[0] in s.pc && WaitsLk(s.pc[s.lk.queue[0]])
    requires s' == UnlockLk(Go(s, p, c))
    ensures WlOk(s')
  {
    hide WlOk;
    WlFrame(s, s');
  }

  /** Passing lk on leaves the count in order. */
  lemma LeaveLkCount(s: State, s': State, p: Pid, c: Pc)
    requires CountOk(s) && p in s.pc && s.lkOwner == Some(p)
    requires (s.pc[p] == ReadLeaveLk && c == Reading) || (s.pc[p] == DoneLeaveLk && c == Out)
    requires s.lk.queue != [] ==> s.lk.queue[0] != p && s.lk.queue[0] in s.pc && WaitsLk(s.pc[s.lk.queue[0]])
    requires s' == UnlockLk(Go(s, p, c))
    ensures CountOk(s')
  {
    hide CountOk;
    CountFrame(s, s');
  }

  lemma LeaveLkInv(s: State, s': State, p: Pid)
    requires Inv(s) && p in s.pc && (s.pc[p].ReadLeaveLk? || s.pc[p].DoneLeaveLk?) && Next(s, s', p)
    ensures Inv(s')
  {
    hide WlOk, CountOk;
    var c := if s.pc[p] == ReadLeaveLk then Reading else Out;
    UnlockLkOk(s, p, c);
    assert s.lk.queue != [] ==> s.lk.queue[0] in s.lk.queue;
    LeaveLkWl(s, s', p, c);
    LeaveLkCount(s, s', p, c);
  }

  lemma DoneCountInv(s: State, s': State, p: Pid)
    requires Inv(s) && p in s.pc && s.pc[p] == DoneCount && Next(s, s', p)
    ensures Inv(s')
  {
    LkFrame(s, s');
    WlFrame(s, s');
    assert p in CountedSet(s.pc);
    assert CountedSet(s'.pc) == CountedSet(s.pc) - {p};
  }

  /** The count and the readers' hold when writelock is passed on. */
  lemma UnlockWlCount(s: State, s': State, p: Pid, c: Pc)
    requires CountOk(s) && OwnerOf(s) && p in s.pc && !s.wlOwner.Free?
    requires (s.pc[p] == Writing && c == Out && s.wlOwner == Writer(p)) || (s.pc[p] == DoneGiveWl && c == DoneLeaveLk)
    requires s.wl.queue != [] ==> s.wl.queue[0] != p && s.wl.queue[0] in s.pc && WaitsWl(s.pc[s.wl.queue[0]])
    requires s' == UnlockWl(Go(s, p, c))
    ensures CountOk(s')
  {
    assert CountedSet(s'.pc) == CountedSet(s.pc);
    if s.wl.queue != [] {
      var q := s.wl.queue[0];
      assert s.pc[q] == ReadWaitWl ==> s.lkOwner == Some(q);
    }
  }

  lemma UnlockWlLk(s: State, s': State, p: Pid, c: Pc)
    requires LkOk(s) && p in s.pc
    requires (s.pc[p] == Writing && c == Out) || (s.pc[p] == DoneGiveWl && c == DoneLeaveLk)
    requires s.wl.queue != [] ==> s.wl.queue[0] != p && s.wl.queue[0] in s.pc && WaitsWl(s.pc[s.wl.queue[0]])
    requires s' == UnlockWl(Go(s, p, c))
    ensures LkOk(s')
  {
    hide LkOk;
    LkFrame(s, s');
  }

  lemma UnlockWlInv(s: State, s': State, p: Pid)
    requires Inv(s) && p in s.pc && (s.pc[p].DoneGiveWl? || s.pc[p].Writing?) && Next(s, s', p)
    ensures Inv(s')
  {
    var c := if s.pc[p] == Writing then Out else DoneLeaveLk;
    assert s.wlOwner == if s.pc[p] == Writing then Writer(p) else Readers;
    UnlockWlOk(s, p, c);
    assert s.wl.queue != [] ==> s.wl.queue[0] in s.wl.queue;
    assert OwnerOf(s);
    hide LkOk, CountOk;
    UnlockWlLk(s, s', p, c);
    UnlockWlCount(s, s', p, c);
  }

  lemma NextInv(s: State, s': State, p: Pid)
    requires Inv(s) && Next(s, s', p)
    ensures Inv(s')
  {
    hide Inv;
    match s.pc[p]
    case Out =>
      if s' == WaitLk(s, p, ReadWaitLk, ReadCount) { WaitLkInv(s, s', p, ReadWaitLk, ReadCount); } else { WriteInv(s, s', p); }
    case Reading => WaitLkInv(s, s', p, DoneWaitLk, DoneCount);
    case ReadCount => ReadCountInv(s, s', p);
    case ReadTakeWl => TakeWlInv(s, s', p);
    case ReadLeaveLk | DoneLeaveLk => LeaveLkInv(s, s', p);
    case DoneCount => DoneCountInv(s, s', p);
    case DoneGiveWl | Writing => UnlockWlInv(s, s', p);
    case _ =>
  }

  // ----- theorems -----

  ghost predicate Run(ss: seq<State>, who: seq<Pid>) {
    && |ss| == |who| + 1 && Init(ss[0])
    && forall i :: 0 <= i < |who| ==> Next(ss[i], ss[i + 1], who[i])
  }

  lemma {:induction false} RunInv(ss: seq<State>, who: seq<Pid>, i: nat)
    requires Run(ss, who) && i < |ss|
    ensures Inv(ss[i])
  {
    if i == 0 { InitInv(ss[0]); }
    else {
      RunInv(ss, who, i - 1);
      NextInv(ss[i - 1], ss[i], who[i - 1]);
    }
  }

  /** A writer excludes every reader and every other writer, at every point of every run. */
  lemma Exclusion(ss: seq<State>, who: seq<Pid>, i: nat, p: Pid, q: Pid)
    requires Run(ss, who) && i < |ss| && p in ss[i].pc && q in ss[i].pc
    requires ss[i].pc[p] == Writing && (ss[i].pc[q].Reading? || ss[i].pc[q].Writing?)
    ensures p == q
  {
    RunInv(ss, who, i);
    if ss[i].pc[q] == Reading { ReadingHolds(ss[i], q); }
  }

  /** While anyone is reading, writelock is with the readers. */
  lemma ReadingHolds(s: State, q: Pid)
    requires Inv(s) && q in s.pc && s.pc[q] == Reading
    ensures s.wlOwner == Readers
  {
    var c := CountedSet(s.pc);
    assert q in c;
    if |c| == 1 {
      OnlyOne(c, q);
      assert forall h :: h in s.pc && Counted(s.pc[h]) ==> h in c;
    }
  }

  lemma OnlyOne<T>(s: set<T>, x: T)
    requires |s| == 1 && x in s
    ensures s == {x}
  {
    assert |s - {x}| == 0;
  }

  /** No deadlock: while some process is inside, one of those inside can move. */
  lemma SomeoneMoves(s: State, p: Pid) returns (q: Pid)
    requires Inv(s) && p in s.pc && s.pc[p] != Out
    ensures q in s.pc && s.pc[q] != Out && !Blocked(s.pc[q])
  {
    q := p;
    if WaitsLk(s.pc[q]) { q := s.lkOwner.value; }
    if WaitsWl(s.pc[q]) {
      match s.wlOwner
      case Writer(w) => q := w;
      case Readers => q := ReaderMoves(s);
    }
  }

  /** While the readers have writelock, one process on the readers' side can move. */
  lemma ReaderMoves(s: State) returns (q: Pid)
    requires Inv(s) && s.wlOwner == Readers
    ensures q in s.pc && s.pc[q] != Out && !Blocked(s.pc[q])
  {
    if s.lkOwner.Some? {
      q := s.lkOwner.value;
    } else {
      var c := CountedSet(s.pc);
      assert c != {};
      q :| q in c;
    }
  }

  /** A process that is inside and not asleep has a next step. */
  lemma Moves(s: State, q: Pid) returns (s': State)
    requires q in s.pc && s.pc[q] != Out && !Blocked(s.pc[q])
    ensures Next(s, s', q)
  {
    match s.pc[q]
    case ReadCount =>
      s' := Go(s, q, if s.readers + 1 == 1 then ReadTakeWl else ReadLeaveLk).(readers := s.readers + 1);
    case ReadTakeWl => s' := WaitWl(s, q, ReadWaitWl, ReadLeaveLk, Readers);
    case ReadLeaveLk => s' := UnlockLk(Go(s, q, Reading));
    case Reading => s' := WaitLk(s, q, DoneWaitLk, DoneCount);
    case DoneCount =>
      s' := Go(s, q, if s.readers - 1 == 0 then DoneGiveWl else DoneLeaveLk).(readers := s.readers - 1);
    case DoneGiveWl => s' := UnlockWl(Go(s, q, DoneLeaveLk));
    case DoneLeaveLk => s' := UnlockLk(Go(s, q, Out));
    case Writing => s' := UnlockWl(Go(s, q, Out));
  }

  // ----- what a call comes to -----

  datatype Call = NoCall | AcquireRead | AcquireWrite | ReleaseRead

  /** The call that a process is in. */
  function CallOf(c: Pc): Call {
    match c
    case ReadWaitLk | ReadCount | ReadTakeWl | ReadWaitWl | ReadLeaveLk => AcquireRead
    case WriteWaitWl => AcquireWrite
    case DoneWaitLk | DoneCount | DoneGiveWl | DoneLeaveLk => ReleaseRead
    case Out | Reading | Writing => NoCall
  }

  /** Where a call returns to. */
  function Returns(call: Call): Pc
    requires call != NoCall
  {
    match call case AcquireRead => Reading case AcquireWrite => Writing case ReleaseRead => Out
  }

  /** What a process can come to from c in one step of anybody.  A call that need not sleep can return
      in the step that makes it, as the two of a writer do. */
  predicate Goes(c: Pc, c': Pc) {
    || c' == c
    || (CallOf(c) != NoCall && (CallOf(c') == CallOf(c) || c' == Returns(CallOf(c))))
    || (c == Out && (CallOf(c') == AcquireRead || CallOf(c') == AcquireWrite || c' == Writing))
    || (c == Reading && CallOf(c') == ReleaseRead)
    || (c == Writing && c' == Out)
  }

  lemma OwnStep(s: State, s': State, p: Pid)
    requires Next(s, s', p) && p !in s.lk.queue && p !in s.wl.queue
    ensures p in s'.pc && Goes(s.pc[p], s'.pc[p])
  {
  }

  lemma OtherStep(s: State, s': State, p: Pid, q: Pid)
    requires Next(s, s', p) && q in s.pc && q != p
    requires (q in s.lk.queue ==> WaitsLk(s.pc[q])) && (q in s.wl.queue ==> WaitsWl(s.pc[q]))
    ensures q in s'.pc && Goes(s.pc[q], s'.pc[q])
  {
  }

  lemma CallStep(s: State, s': State, p: Pid, q: Pid)
    requires Inv(s) && Next(s, s', p) && q in s.pc
    ensures q in s'.pc && Goes(s.pc[q], s'.pc[q])
  {
    hide CountOk, NoDup;
    assert !Blocked(s.pc[p]);
    hide Next, Goes;
    if q == p { OwnStep(s, s', p); } else { OtherStep(s, s', p, q); }
  }

  /** A call that ends ends where it should: acquire_readlock with the process reading, acquire_writelock
      with it writing, release_readlock with it outside. */
  lemma {:induction false} CallEnds(ss: seq<State>, who: seq<Pid>, i: nat, j: nat, q: Pid) returns (k: nat)
    requires Run(ss, who) && i <= j < |ss| && q in ss[i].pc && CallOf(ss[i].pc[q]) != NoCall
    ensures i <= k <= j && forall m :: i <= m <= k ==> q in ss[m].pc
    ensures forall m :: i <= m < k ==> CallOf(ss[m].pc[q]) == CallOf(ss[i].pc[q])
    ensures ss[k].pc[q] == Returns(CallOf(ss[i].pc[q])) || (k == j && CallOf(ss[j].pc[q]) == CallOf(ss[i].pc[q]))
    decreases j
  {
    hide Inv, Next, Init;
    if i == j { return i; }
    k := CallEnds(ss, who, i, j - 1, q);
    if k == j - 1 && CallOf(ss[k].pc[q]) == CallOf(ss[i].pc[q]) {
      RunInv(ss, who, k);
      CallStep(ss[k], ss[j], who[k], q);
      k := j;
    }
  }

  /** A process that does not get writelock at once waits for a writer. */
  lemma WaitsForWriter(s: State, p: Pid)
    requires Inv(s) && p in s.pc && s.pc[p] == ReadWaitWl
    ensures s.wlOwner.Writer?
  {
    assert p in s.wl.queue && s.lkOwner == Some(p);
  }

  /** Readers share: while the readers have writelock, a reader that has lk reads after two more steps of
      its own, and nobody else moves but the next one to get lk. */
  lemma ReadersShare(s: State, p: Pid) returns (s1: State, s2: State)
    requires Inv(s) && p in s.pc && s.pc[p] == ReadCount && s.wlOwner == Readers
    ensures Next(s, s1, p) && Next(s1, s2, p) && s2.pc.Keys == s.pc.Keys
    ensures s2.pc[p] == Reading && s2.readers == s.readers + 1 && s2.wlOwner == Readers
    ensures forall q :: q in s.pc && q != p ==> s2.pc[q] == s.pc[q] || WaitsLk(s.pc[q])
  {
    assert s.lkOwner == Some(p);
    assert s.lk.queue != [] ==> s.lk.queue[0] in s.lk.queue;
    hide NoDup;
    s1 := Moves(s, p);
    s2 := Moves(s1, p);
  }

  predicate Below(p: Pid, n: nat) { p < n }

  /** The first k processes read and the others are outside. */
  predicate FirstRead(s: State, n: nat, k: nat) {
    && s.lk == Fifo(1, []) && s.lkOwner == None && s.wl == Fifo(if k == 0 then 1 else 0, []) && s.readers == k
    && s.wlOwner == (if k == 0 then Free else Readers)
    && (forall p: Pid :: p in s.pc <==> p < n)
    && forall p: Pid :: p < n ==> s.pc[p] == if p < k then Reading else Out
  }

  lemma OneMore(s: State, n: nat, k: Pid) returns (ss: seq<State>, who: seq<Pid>)
    requires FirstRead(s, n, k) && k < n
    ensures |ss| == |who| + 1 && ss[0] == s && FirstRead(ss[|who|], n, k + 1)
    ensures forall i :: 0 <= i < |who| ==> Next(ss[i], ss[i + 1], who[i])
  {
    var s1 := WaitLk(s, k, ReadWaitLk, ReadCount);
    var s2 := Moves(s1, k);
    var s3 := Moves(s2, k);
    if k == 0 {
      var s4 := Moves(s3, k);
      ss, who := [s, s1, s2, s3, s4], [k, k, k, k];
    } else {
      ss, who := [s, s1, s2, s3], [k, k, k];
    }
  }

  /** Any number of processes can be reading at once. */
  lemma {:induction false} AllReading(n: nat, k: nat) returns (ss: seq<State>, who: seq<Pid>)
    requires k <= n <= NPROC
    ensures Run(ss, who) && FirstRead(ss[|who|], n, k)
    decreases k
  {
    if k == 0 {
      var pc: map<Pid, Pc> := map p: Pid | Below(p, n) :: Out;
      ss, who := [State.State(Fifo(1, []), Fifo(1, []), 0, pc, None, Free)], [];
    } else {
      var ss1, who1 := AllReading(n, k - 1);
      hide FirstRead, Next;
      var ss2, who2 := OneMore(ss1[|who1|], n, k - 1);
      ss, who := ss1 + ss2[1..], who1 + who2;
      forall i | 0 <= i < |who| ensures Next(ss[i], ss[i + 1], who[i]) {
        if i >= |who1| {
          assert Next(ss2[i - |who1|], ss2[i - |who1| + 1], who2[i - |who1|]);
          assert ss[i] == ss2[i - |who1|];
        }
      }
    }
  }
}
