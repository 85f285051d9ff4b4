/** Page tables and the page allocator as values (vm.c, kalloc.c).  Every frame that a page
directory owns is held by a `Slot`: the directory itself, a page table, or a user page.  Memory
is conserved when every allocatable frame is in exactly one place: the free list, one slot, or
with another caller. */
module VmState {
  import opened Types

  const PGSIZE: nat := 4096
  const NENTRIES: nat := 1024

  /** Directory entries below this index map user memory: KERNBASE is 0x80000000. */
  const UENTRIES: nat := 512
  const KERNBASE: nat := 0x8000_0000

  /** A page directory or page table entry; Empty is an entry without PTE_P. */
  datatype Entry = Empty | Entry(frame: nat, flags: nat)

  type Table = t: seq<Entry> | |t| == NENTRIES witness seq(NENTRIES, i => Empty)

  type Page = p: seq<nat> | |p| == PGSIZE witness seq(PGSIZE, i => 0)

  function EmptyTable(): (t: Table)
    ensures forall i :: 0 <= i < NENTRIES ==> t[i] == Empty
  {
    seq(NENTRIES, i => Empty)
  }

  /** The frames lo..|tab| can be allocated; each is seen as a table or as a page of data. */
  datatype Mem = Mem(lo: nat, tab: seq<Table>, data: seq<Page>, free: seq<nat>, dirs: set<nat>, other: set<nat>)

  datatype Slot = Dir(d: nat) | Tab(d: nat, i: nat) | User(d: nat, i: nat, j: nat)

  predicate ValidSlot(m: Mem, s: Slot) {
    && s.d in m.dirs
    && (s.Tab? ==> s.i < NENTRIES)
    && (s.User? ==> s.i < UENTRIES && s.j < NENTRIES)
  }

  /** Also the kernel half of a directory: those entries are read, but they own nothing. */
  predicate AnySlot(m: Mem, s: Slot) {
    && s.d in m.dirs
    && (s.Tab? ==> s.i < NENTRIES)
    && (s.User? ==> s.i < NENTRIES && s.j < NENTRIES)
  }

  function At(m: Mem, f: nat, i: nat): Entry {
    if f < |m.tab| && i < NENTRIES then m.tab[f][i] else Empty
  }

  /** The entry in a slot; a directory holds itself. */
  function Held(m: Mem, s: Slot): Entry {
    match s
    case Dir(d) => if d in m.dirs then Entry(d, 0) else Empty
    case Tab(d, i) => if d in m.dirs then At(m, d, i) else Empty
    case User(d, i, j) =>
      var t := if d in m.dirs then At(m, d, i) else Empty;
      if t.Empty? then Empty else At(m, t.frame, j)
  }

  /** Slot s holds frame f. */
  predicate Holds(m: Mem, s: Slot, f: nat) {
    Held(m, s).Entry? && Held(m, s).frame == f
  }

  predicate Allocatable(m: Mem, f: nat) { m.lo <= f < |m.tab| }

  /** No frame is in two slots. */
  ghost predicate Distinct(m: Mem) {
    forall s, u, f {:trigger Holds(m, s, f), Holds(m, u, f)} ::
      ValidSlot(m, s) && ValidSlot(m, u) && Holds(m, s, f) && Holds(m, u, f) ==> s == u
  }

  /** Frames in slots are allocatable, not free and with no other caller. */
  ghost predicate Apart(m: Mem) {
    && (forall s, f :: ValidSlot(m, s) && Holds(m, s, f) ==> Allocatable(m, f) && f !in m.free && f !in m.other)
    && (forall f :: f in m.other ==> Allocatable(m, f) && f !in m.free)
    && (forall f :: f in m.free ==> Allocatable(m, f))
    && NoDup(m.free)
  }

  ghost predicate Owned(m: Mem, f: nat) {
    exists s :: ValidSlot(m, s) && Holds(m, s, f)
  }

  /** No frame is lost. */
  ghost predicate NoLeak(m: Mem) {
    forall f :: Allocatable(m, f) ==> f in m.free || f in m.other || Owned(m, f)
  }

  /** Every allocatable frame is in exactly one place. */
  ghost predicate Conserved(m: Mem) {
    Distinct(m) && Apart(m) && NoLeak(m)
  }

  // ----- the moves of a frame -----

  /** kalloc: from the free list to the caller. */
  function Take(m: Mem): Mem
    requires m.free != []
  {
    m.(free := m.free[1..], other := m.other + {m.free[0]})
  }

  /** kfree: from the caller to the free list. */
  function Give(m: Mem, f: nat): Mem {
    m.(free := [f] + m.free, other := m.other - {f})
  }

  lemma TakeConserved(m: Mem)
    requires Conserved(m) && m.free != []
    ensures Conserved(Take(m)) && m.free[0] !in m.other && Allocatable(m, m.free[0])
  {
    var m' := Take(m);
    assert forall s, f :: Holds(m', s, f) <==> Holds(m, s, f);
    assert forall s :: ValidSlot(m', s) <==> ValidSlot(m, s);
    forall f | Allocatable(m, f) && Owned(m, f) ensures Owned(m', f) {
      var s :| ValidSlot(m, s) && Holds(m, s, f);
      assert ValidSlot(m', s) && Holds(m', s, f);
    }
    forall f | f in m'.other ensures f !in m'.free {
      assert f == m.free[0] ==> f !in m.free[1..];
    }
  }

  lemma GiveConserved(m: Mem, f: nat)
    requires Conserved(m) && f in m.other
    ensures Conserved(Give(m, f))
  {
    var m' := Give(m, f);
    assert forall s, g :: Holds(m', s, g) <==> Holds(m, s, g);
    assert forall s :: ValidSlot(m', s) <==> ValidSlot(m, s);
    forall g | Allocatable(m, g) && Owned(m, g) ensures Owned(m', g) {
      var s :| ValidSlot(m, s) && Holds(m, s, g);
      assert ValidSlot(m', s) && Holds(m', s, g);
    }
  }

  ghost predicate SameFrames(m: Mem, m': Mem) {
    m'.lo == m.lo && |m'.tab| == |m.tab| && m'.free == m.free
  }

  /** A frame that goes from a caller into one empty slot. */
  lemma FrameStored(m: Mem, m': Mem, s: Slot, f: nat)
    requires Conserved(m) && SameFrames(m, m') && m'.dirs == m.dirs && f in m.other && m'.other == m.other - {f}
    requires ValidSlot(m, s) && Held(m, s) == Empty && Holds(m', s, f)
    requires forall u :: ValidSlot(m, u) && u != s ==> Held(m', u) == Held(m, u)
    ensures Conserved(m')
  {
    assert forall u :: ValidSlot(m', u) <==> ValidSlot(m, u);
    forall u, g | ValidSlot(m, u) && u != s ensures Holds(m', u, g) <==> Holds(m, u, g) {}
    forall g | Allocatable(m, g) && Owned(m, g) ensures Owned(m', g) {
      var u :| ValidSlot(m, u) && Holds(m, u, g);
      assert ValidSlot(m', u) && Holds(m', u, g);
    }
    assert Owned(m', f);
  }

  /** A frame that a caller takes out of its slot. */
  lemma FrameTaken(m: Mem, m': Mem, s: Slot, f: nat)
    requires Conserved(m) && SameFrames(m, m') && m'.dirs == m.dirs && m'.other == m.other + {f}
    requires ValidSlot(m, s) && Holds(m, s, f) && Held(m', s) == Empty
    requires forall u :: ValidSlot(m, u) && u != s ==> Held(m', u) == Held(m, u)
    ensures Conserved(m')
  {
    assert forall u :: ValidSlot(m', u) <==> ValidSlot(m, u);
    forall u, g | ValidSlot(m, u) && u != s ensures Holds(m', u, g) <==> Holds(m, u, g) {}
    forall u, g | ValidSlot(m', u) && Holds(m', u, g) ensures g !in m'.other {
      assert u != s && Holds(m, u, g);
    }
    forall g | Allocatable(m, g) && g != f && Owned(m, g) ensures Owned(m', g) {
      var u :| ValidSlot(m, u) && Holds(m, u, g);
      assert ValidSlot(m', u) && Holds(m', u, g);
    }
  }

  /** A write that no slot can see. */
  lemma FramesKept(m: Mem, m': Mem)
    requires Conserved(m) && SameFrames(m, m') && m'.dirs == m.dirs && m'.other == m.other
    requires forall u :: ValidSlot(m, u) ==> Held(m', u) == Held(m, u)
    ensures Conserved(m')
  {
    assert forall u :: ValidSlot(m', u) <==> ValidSlot(m, u);
    forall u, g | ValidSlot(m, u) ensures Holds(m', u, g) <==> Holds(m, u, g) {}
    forall g | Allocatable(m, g) && Owned(m, g) ensures Owned(m', g) {
      var u :| ValidSlot(m, u) && Holds(m, u, g);
      assert ValidSlot(m', u) && Holds(m', u, g);
    }
  }

  // ----- writing entries -----

  function PutEntry(m: Mem, t: nat, i: nat, e: Entry): Mem
    requires t < |m.tab| && i < NENTRIES
  {
    m.(tab := m.tab[t := m.tab[t][i := e]])
  }

  /** walkpgdir's new page table: zeroed, and entered in the directory. */
  function AddTable(m: Mem, d: nat, i: nat, f: nat, flags: nat): Mem
    requires d < |m.tab| && f < |m.tab| && i < NENTRIES
  {
    PutEntry(m.(tab := m.tab[f := EmptyTable()], other := m.other - {f}), d, i, Entry(f, flags))
  }

  lemma SlotFrames(m: Mem, s: Slot)
    requires Conserved(m) && ValidSlot(m, s) && Held(m, s).Entry?
    ensures Holds(m, s, Held(m, s).frame) && Allocatable(m, Held(m, s).frame)
    ensures Held(m, s).frame !in m.other && Held(m, s).frame !in m.free
  {
  }

  /** Two slots hold different frames. */
  lemma Differ(m: Mem, s: Slot, u: Slot)
    requires Conserved(m) && ValidSlot(m, s) && ValidSlot(m, u) && s != u && Held(m, s).Entry? && Held(m, u).Entry?
    ensures Held(m, s).frame != Held(m, u).frame
  {
    assert Holds(m, s, Held(m, s).frame) && Holds(m, u, Held(m, u).frame);
  }

  lemma AddTableHeld(m: Mem, d: nat, i: nat, f: nat, flags: nat, u: Slot)
    requires Conserved(m) && d in m.dirs && i < NENTRIES && d < |m.tab| && At(m, d, i) == Empty && f in m.other && f < |m.tab|
    requires AnySlot(m, u)
    ensures Held(AddTable(m, d, i, f, flags), u) == if u == Tab(d, i) then Entry(f, flags) else Held(m, u)
  {
    SlotFrames(m, Dir(u.d));
    SlotFrames(m, Dir(d));
    if u.User? && Held(m, Tab(u.d, u.i)).Entry? {
      SlotFrames(m, Tab(u.d, u.i));
      Differ(m, Tab(u.d, u.i), Dir(d));
    }
  }

  lemma AddTableConserved(m: Mem, d: nat, i: nat, f: nat, flags: nat)
    requires Conserved(m) && d in m.dirs && i < NENTRIES && d < |m.tab| && At(m, d, i) == Empty && f in m.other && f < |m.tab|
    ensures Conserved(AddTable(m, d, i, f, flags))
    ensures forall u :: AnySlot(m, u) ==>
      Held(AddTable(m, d, i, f, flags), u) == if u == Tab(d, i) then Entry(f, flags) else Held(m, u)
  {
    var m' := AddTable(m, d, i, f, flags);
    forall u | AnySlot(m, u) ensures Held(m', u) == if u == Tab(d, i) then Entry(f, flags) else Held(m, u) {
      AddTableHeld(m, d, i, f, flags, u);
    }
    hide Conserved, Held, AddTable;
    assert Holds(m', Tab(d, i), f) && ValidSlot(m, Tab(d, i));
    FrameStored(m, m', Tab(d, i), f);
  }

  /** A write to a page table, at index j of the table of directory entry i. */
  lemma PutEntryHeld(m: Mem, d: nat, i: nat, j: nat, e: Entry, u: Slot)
    requires Conserved(m) && d in m.dirs && i < NENTRIES && j < NENTRIES
    requires At(m, d, i).Entry? && At(m, d, i).frame < |m.tab| && AnySlot(m, u)
    ensures Held(PutEntry(m, At(m, d, i).frame, j, e), u) == if u == User(d, i, j) then e else Held(m, u)
  {
    var t := At(m, d, i).frame;
    SlotFrames(m, Tab(d, i));
    Differ(m, Tab(d, i), Dir(u.d));
    if u.User? && (u.d != d || u.i != i) && Held(m, Tab(u.d, u.i)).Entry? {
      Differ(m, Tab(d, i), Tab(u.d, u.i));
    }
  }

  /** Storing a caller's frame in an empty user entry. */
  lemma PutUserConserved(m: Mem, d: nat, i: nat, j: nat, f: nat, flags: nat)
    requires Conserved(m) && d in m.dirs && i < UENTRIES && j < NENTRIES && f in m.other
    requires At(m, d, i).Entry? && At(m, d, i).frame < |m.tab| && At(m, At(m, d, i).frame, j) == Empty
    ensures Conserved(PutEntry(m, At(m, d, i).frame, j, Entry(f, flags)).(other := m.other - {f}))
    ensures forall u :: AnySlot(m, u) ==>
      Held(PutEntry(m, At(m, d, i).frame, j, Entry(f, flags)).(other := m.other - {f}), u)
      == if u == User(d, i, j) then Entry(f, flags) else Held(m, u)
  {
    var m1 := PutEntry(m, At(m, d, i).frame, j, Entry(f, flags));
    var m' := m1.(other := m.other - {f});
    var s := User(d, i, j);
    forall u | AnySlot(m, u) ensures Held(m', u) == if u == s then Entry(f, flags) else Held(m, u) {
      PutEntryHeld(m, d, i, j, Entry(f, flags), u);
      assert Held(m', u) == Held(m1, u);
    }
    assert ValidSlot(m, s) && Held(m, s) == Empty;
    hide Conserved, Held;
    FrameStored(m, m', s, f);
  }

  /** Emptying a user entry hands its frame to the caller. */
  lemma ClearUserConserved(m: Mem, d: nat, i: nat, j: nat)
    requires Conserved(m) && d in m.dirs && i < UENTRIES && j < NENTRIES
    requires At(m, d, i).Entry? && At(m, d, i).frame < |m.tab| && At(m, At(m, d, i).frame, j).Entry?
    ensures var f := At(m, At(m, d, i).frame, j).frame;
      var m' := PutEntry(m, At(m, d, i).frame, j, Empty).(other := m.other + {f});
      && Conserved(m')
      && (forall u :: AnySlot(m, u) ==> Held(m', u) == if u == User(d, i, j) then Empty else Held(m, u))
  {
    var s, f := User(d, i, j), At(m, At(m, d, i).frame, j).frame;
    var m1 := PutEntry(m, At(m, d, i).frame, j, Empty);
    var m' := m1.(other := m.other + {f});
    forall u | AnySlot(m, u) ensures Held(m', u) == if u == s then Empty else Held(m, u) {
      PutEntryHeld(m, d, i, j, Empty, u);
      assert Held(m', u) == Held(m1, u);
    }
    assert ValidSlot(m, s) && Holds(m, s, f);
    hide Conserved, Held;
    FrameTaken(m, m', s, f);
  }

  /** A kernel entry maps memory that no directory owns. */
  lemma PutKernelConserved(m: Mem, d: nat, i: nat, j: nat, e: Entry)
    requires Conserved(m) && d in m.dirs && UENTRIES <= i < NENTRIES && j < NENTRIES
    requires At(m, d, i).Entry? && At(m, d, i).frame < |m.tab|
    ensures Conserved(PutEntry(m, At(m, d, i).frame, j, e))
    ensures forall u :: AnySlot(m, u) ==>
      Held(PutEntry(m, At(m, d, i).frame, j, e), u) == if u == User(d, i, j) then e else Held(m, u)
  {
    var m' := PutEntry(m, At(m, d, i).frame, j, e);
    forall u | AnySlot(m, u) ensures Held(m', u) == if u == User(d, i, j) then e else Held(m, u) {
      PutEntryHeld(m, d, i, j, e, u);
    }
    hide Conserved, Held;
    FramesKept(m, m');
  }

  /** What a caller does to a frame of its own is invisible. */
  lemma ScribbleConserved(m: Mem, f: nat, t: Table)
    requires Conserved(m) && f in m.other && f < |m.tab|
    ensures Conserved(m.(tab := m.tab[f := t]))
    ensures forall u :: AnySlot(m, u) ==> Held(m.(tab := m.tab[f := t]), u) == Held(m, u)
  {
    var m' := m.(tab := m.tab[f := t]);
    forall u | AnySlot(m, u) ensures Held(m', u) == Held(m, u) {
      SlotFrames(m, Dir(u.d));
      if u.User? && Held(m, Tab(u.d, u.i)).Entry? { SlotFrames(m, Tab(u.d, u.i)); }
    }
    hide Conserved, Held;
    FramesKept(m, m');
  }

  // ----- directories come and go -----

  /** A caller's zeroed frame becomes a page directory. */
  function AddDir(m: Mem, f: nat): Mem
    requires f < |m.tab|
  {
    m.(tab := m.tab[f := EmptyTable()], dirs := m.dirs + {f}, other := m.other - {f})
  }

  lemma AddDirConserved(m: Mem, f: nat)
    requires Conserved(m) && f in m.other && f < |m.tab|
    ensures f !in m.dirs && Conserved(AddDir(m, f))
    ensures forall u :: AnySlot(AddDir(m, f), u) ==>
      Held(AddDir(m, f), u) == if u == Dir(f) then Entry(f, 0) else if u.d == f then Empty else Held(m, u)
  {
    var m' := AddDir(m, f);
    if f in m.dirs { SlotFrames(m, Dir(f)); }
    forall u | AnySlot(m', u)
      ensures Held(m', u) == if u == Dir(f) then Entry(f, 0) else if u.d == f then Empty else Held(m, u)
    {
      if u.d != f {
        SlotFrames(m, Dir(u.d));
        if u.User? && Held(m, Tab(u.d, u.i)).Entry? { SlotFrames(m, Tab(u.d, u.i)); }
      }
    }
    assert forall u :: ValidSlot(m', u) <==> ValidSlot(m, u) || (u.d == f && ValidSlot(m', u));
    forall u, g | ValidSlot(m', u) ensures Holds(m', u, g) <==> (if u.d == f then u == Dir(f) && g == f else Holds(m, u, g)) {}
    forall g | Allocatable(m, g) && g != f && Owned(m, g) ensures Owned(m', g) {
      var u :| ValidSlot(m, u) && Holds(m, u, g);
      assert u.d != f && ValidSlot(m', u) && Holds(m', u, g);
    }
    assert ValidSlot(m', Dir(f)) && Holds(m', Dir(f), f);
  }

  /** The page tables of directory d. */
  ghost function Tables(m: Mem, d: nat): set<nat>
    requires d in m.dirs
  {
    set i | 0 <= i < NENTRIES && At(m, d, i).Entry? :: At(m, d, i).frame
  }

  /** Directory d, without user pages, and its page tables go back to the caller. */
  function DropDir(m: Mem, d: nat, tables: set<nat>): Mem {
    m.(dirs := m.dirs - {d}, other := m.other + tables + {d})
  }

  ghost predicate NoPages(m: Mem, d: nat) {
    forall i, j :: 0 <= i < UENTRIES && 0 <= j < NENTRIES ==> Held(m, User(d, i, j)) == Empty
  }

  lemma DropDirConserved(m: Mem, d: nat)
    requires Conserved(m) && d in m.dirs && NoPages(m, d)
    ensures Conserved(DropDir(m, d, Tables(m, d)))
    ensures forall u :: AnySlot(m, u) && u.d != d ==> Held(DropDir(m, d, Tables(m, d)), u) == Held(m, u)
  {
    var m', ts := DropDir(m, d, Tables(m, d)), Tables(m, d);
    forall u | AnySlot(m', u) ensures Held(m', u) == Held(m, u) {}
    forall u, g | ValidSlot(m', u) ensures ValidSlot(m, u) && (Holds(m', u, g) <==> Holds(m, u, g)) {
      assert AnySlot(m', u);
    }
    forall g | g in ts ensures exists i :: 0 <= i < NENTRIES && ValidSlot(m, Tab(d, i)) && Holds(m, Tab(d, i), g) {
      var i :| 0 <= i < NENTRIES && At(m, d, i).Entry? && At(m, d, i).frame == g;
      assert Holds(m, Tab(d, i), g);
    }
    assert ValidSlot(m, Dir(d)) && Holds(m, Dir(d), d);
    forall u, g | ValidSlot(m, u) && Holds(m, u, g) && g !in m'.other ensures ValidSlot(m', u) && Holds(m', u, g) {
      if u.d == d { DropSlot(m, d, u); }
      assert AnySlot(m', u);
    }
    forall g | Allocatable(m, g) && g !in m'.other && Owned(m, g) ensures Owned(m', g) {
      var u :| ValidSlot(m, u) && Holds(m, u, g);
      assert ValidSlot(m', u);
    }
  }

  lemma DropSlot(m: Mem, d: nat, u: Slot)
    requires d in m.dirs && NoPages(m, d) && ValidSlot(m, u) && u.d == d && Held(m, u).Entry?
    ensures Held(m, u).frame in Tables(m, d) + {d}
  {
  }
}
