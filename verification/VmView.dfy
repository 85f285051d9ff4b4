/** What the page table operations of vm.c promise, on memories as values: which pages are mapped to
what, and what an operation leaves as it was. */
module VmView {
  import opened Types
  import opened VmState

  const UPAGES: nat := UENTRIES * NENTRIES
  const NPAGES: nat := NENTRIES * NENTRIES

  const PTE_W: nat := 2
  const PTE_U: nat := 4

  function ZeroPage(): Page { seq(PGSIZE, i => 0) }

  /** kfree fills a page with 1s; read as a table, every entry of it is present. */
  function JunkPage(): Page { seq(PGSIZE, i => 1) }
  function JunkTable(): Table { seq(NENTRIES, i => Entry(0x1010, 0x100)) }

  predicate Between(a: nat, f: nat, b: nat) { a <= f < b }

  ghost function Frames(a: nat, b: nat): set<nat> { set f: nat | f < b && Between(a, f, b) }

  /** The number of pages that hold sz bytes. */
  function PageUp(sz: nat): nat { (sz + PGSIZE - 1) / PGSIZE }

  function Min(a: nat, b: nat): nat { if a < b then a else b }

  /** The entry of page p in directory d. */
  function Look(m: Mem, d: nat, p: nat): Entry {
    Held(m, User(d, p / NENTRIES, p % NENTRIES))
  }

  function Content(m: Mem, f: nat): Page {
    if f < |m.data| then m.data[f] else ZeroPage()
  }

  /** A slot, and the bytes of the user page in it, are the same in both memories. */
  predicate SameSlot(m: Mem, m': Mem, u: Slot) {
    && Held(m', u) == Held(m, u)
    && (u.User? && u.i < UENTRIES && Held(m, u).Entry? ==> Content(m', Held(m, u).frame) == Content(m, Held(m, u).frame))
  }

  predicate Touched(u: Slot, d: nat, a: nat, b: nat) {
    u.d == d && (u.Tab? || (u.User? && a <= u.i * NENTRIES + u.j < b))
  }

  /** Nothing changed but pages a..b of directory d and its list of page tables. */
  ghost predicate Rest(m: Mem, m': Mem, d: nat, a: nat, b: nat) {
    forall u :: AnySlot(m, u) && !Touched(u, d, a, b) ==> SameSlot(m, m', u)
  }

  /** No slot changed. */
  ghost predicate Quiet(m: Mem, m': Mem) {
    forall u :: AnySlot(m, u) ==> SameSlot(m, m', u)
  }

  /** No slot changed but those of q. */
  ghost predicate QuietBut(m: Mem, m': Mem, q: set<Slot>) {
    forall u :: AnySlot(m, u) && u !in q ==> SameSlot(m, m', u)
  }

  /** The two slots that mapping page p of directory d can change. */
  function PageSlots(d: nat, p: nat): set<Slot> {
    {Tab(d, p / NENTRIES), User(d, p / NENTRIES, p % NENTRIES)}
  }

  // ----- what a page grants -----

  predicate Has(flags: nat, bit: nat)
    requires bit > 0
  {
    flags / bit % 2 == 1
  }

  /** An access to page p needs its bit in the directory entry and in the page table entry. */
  predicate Grants(m: Mem, d: nat, p: nat, bit: nat)
    requires bit > 0
  {
    Look(m, d, p).Entry? && Has(At(m, d, p / NENTRIES).flags, bit) && Has(Look(m, d, p).flags, bit)
  }

  /** A directory entry that leaves all to the page table. */
  predicate Passes(e: Entry) { e.Entry? ==> Has(e.flags, PTE_W) && Has(e.flags, PTE_U) }

  /** Every page table is entered for writing and for the user, so that its own entries decide. */
  ghost predicate Open(m: Mem) {
    forall d, i :: d in m.dirs && 0 <= i < NENTRIES ==> Passes(At(m, d, i))
  }

  /** In an open memory a page grants what its own entry says. */
  lemma GrantsIs(m: Mem, d: nat, p: nat)
    requires Open(m) && d in m.dirs && p < NPAGES
    ensures Grants(m, d, p, PTE_W) <==> Look(m, d, p).Entry? && Has(Look(m, d, p).flags, PTE_W)
    ensures Grants(m, d, p, PTE_U) <==> Look(m, d, p).Entry? && Has(Look(m, d, p).flags, PTE_U)
  {
    hide Has;
    assert Passes(At(m, d, p / NENTRIES));
  }

  lemma QuietOpen(m: Mem, m': Mem, q: set<Slot>)
    requires Open(m) && m'.dirs <= m.dirs && QuietBut(m, m', q)
    requires forall u :: u in q && u.Tab? ==> Passes(At(m', u.d, u.i))
    ensures Open(m')
  {
    hide Passes;
    forall d, i | d in m'.dirs && 0 <= i < NENTRIES ensures Passes(At(m', d, i)) {
      if Tab(d, i) !in q { assert AnySlot(m, Tab(d, i)) && SameSlot(m, m', Tab(d, i)); }
    }
  }

  lemma StillOpen(m: Mem, m': Mem)
    requires Open(m) && m'.dirs <= m.dirs && Quiet(m, m')
    ensures Open(m')
  {
    hide Open, SameSlot;
    QuietOpen(m, m', {});
  }

  lemma DropOpen(m: Mem, d: nat)
    requires Open(m) && d in m.dirs
    ensures Open(DropDir(m, d, Tables(m, d)))
  {
    hide Passes;
    var m' := DropDir(m, d, Tables(m, d));
    forall e, i | e in m'.dirs && 0 <= i < NENTRIES ensures Passes(At(m', e, i)) {
      assert At(m', e, i) == At(m, e, i);
    }
  }

  lemma AddOpen(m: Mem, f: nat)
    requires Conserved(m) && Open(m) && f in m.other && f < |m.tab|
    ensures Open(AddDir(m, f))
  {
    AddDirConserved(m, f);
    hide Conserved;
    var m' := AddDir(m, f);
    forall e, i | e in m'.dirs && 0 <= i < NENTRIES ensures Passes(At(m', e, i)) {
      assert AnySlot(m', Tab(e, i)) && Held(m', Tab(e, i)) == if e == f then Empty else Held(m, Tab(e, i));
      if e != f { assert Passes(At(m, e, i)); }
    }
  }

  datatype MapResult = Mapped | NoMemory | Remap

  datatype Growth = Size(n: nat) | Panic

  lemma QuietScribble(m: Mem, f: nat, t: Table, page: Page)
    requires Conserved(m) && f in m.other && f < |m.tab| && f < |m.data|
    ensures var m' := m.(tab := m.tab[f := t], data := m.data[f := page]);
      Conserved(m') && Quiet(m, m')
  {
    var m1 := m.(tab := m.tab[f := t]);
    ScribbleConserved(m, f, t);
    var m' := m1.(data := m.data[f := page]);
    forall u | AnySlot(m, u) ensures Held(m', u) == Held(m1, u) && SameSlot(m, m', u) {
      if u.User? && u.i < UENTRIES && Held(m, u).Entry? { SlotFrames(m, u); }
    }
    FramesKept(m1, m');
  }

  lemma SameTrans(m: Mem, m1: Mem, m2: Mem, u: Slot)
    requires SameSlot(m, m1, u) && SameSlot(m1, m2, u)
    ensures SameSlot(m, m2, u)
  {
  }

  lemma RestStep(m: Mem, m1: Mem, m2: Mem, d: nat, a: nat, p: nat)
    requires Rest(m, m1, d, a, p) && m1.dirs == m.dirs && a <= p && QuietBut(m1, m2, PageSlots(d, p))
    ensures Rest(m, m2, d, a, p + 1)
  {
    forall u | AnySlot(m, u) && !Touched(u, d, a, p + 1) ensures SameSlot(m, m2, u) {
      assert u !in PageSlots(d, p) && AnySlot(m1, u);
      SameTrans(m, m1, m2, u);
    }
  }

  lemma RestRefl(m: Mem, d: nat, a: nat, b: nat)
    ensures Rest(m, m, d, a, b)
  {
  }

  lemma RestWiden(m: Mem, m': Mem, d: nat, a: nat, p: nat, b: nat)
    requires Rest(m, m', d, a, p) && p <= b
    ensures Rest(m, m', d, a, b)
  {
    forall u | AnySlot(m, u) && !Touched(u, d, a, b) ensures SameSlot(m, m', u) {
      assert !Touched(u, d, a, p);
    }
  }

  /** Page q of directory d is as it was, being outside of a..b. */
  lemma RestPage(m: Mem, m': Mem, d: nat, a: nat, b: nat, q: nat)
    requires Rest(m, m', d, a, b) && d in m.dirs && q < NPAGES && !(a <= q < b)
    ensures SameSlot(m, m', User(d, q / NENTRIES, q % NENTRIES)) && Look(m', d, q) == Look(m, d, q)
  {
    assert AnySlot(m, User(d, q / NENTRIES, q % NENTRIES));
  }

  /** Page q is as it was when page p was the one to change. */
  lemma ButPage(m: Mem, m': Mem, d: nat, p: nat, q: nat)
    requires QuietBut(m, m', PageSlots(d, p)) && d in m.dirs && q < NPAGES && p != q
    ensures SameSlot(m, m', User(d, q / NENTRIES, q % NENTRIES)) && Look(m', d, q) == Look(m, d, q)
  {
    assert AnySlot(m, User(d, q / NENTRIES, q % NENTRIES)) && User(d, q / NENTRIES, q % NENTRIES) !in PageSlots(d, p);
  }

  /** Pages a..b of directory d are unmapped. */
  ghost predicate Cleared(m: Mem, d: nat, a: nat, b: nat) {
    forall q :: a <= q < b ==> Look(m, d, q) == Empty
  }

  /** The frames that pages a..b of directory d had are in the free list. */
  ghost predicate Returned(m: Mem, m': Mem, d: nat, a: nat, b: nat) {
    forall q :: a <= q < b && Look(m, d, q).Entry? ==> Look(m, d, q).frame in m'.free
  }

  /** A user page has an allocatable frame. */
  lemma OwnedFrame(m: Mem, d: nat, p: nat)
    requires Conserved(m) && d in m.dirs && p < UPAGES && Look(m, d, p).Entry?
    ensures m.lo <= Look(m, d, p).frame
  {
    SlotFrames(m, User(d, p / NENTRIES, p % NENTRIES));
  }

  lemma ClearStep(m: Mem, m1: Mem, m2: Mem, d: nat, a: nat, p: nat)
    requires Rest(m, m1, d, a, p) && m1.dirs == m.dirs && d in m.dirs && a <= p < NPAGES
    requires QuietBut(m1, m2, {User(d, p / NENTRIES, p % NENTRIES)})
    requires Cleared(m1, d, a, p) && Look(m2, d, p) == Empty
    ensures Rest(m, m2, d, a, p + 1) && Cleared(m2, d, a, p + 1)
  {
    assert QuietBut(m1, m2, PageSlots(d, p));
    RestStep(m, m1, m2, d, a, p);
    forall q | a <= q < p ensures Look(m2, d, q) == Empty {
      ButPage(m1, m2, d, p, q);
    }
  }

  lemma SkipTable(m: Mem, m1: Mem, d: nat, a: nat, p: nat, q: nat)
    requires Rest(m, m1, d, a, p) && d in m.dirs && p < NPAGES && a <= p && q == (p / NENTRIES + 1) * NENTRIES
    requires Cleared(m1, d, a, p) && At(m1, d, p / NENTRIES) == Empty && Returned(m, m1, d, a, p)
    ensures Cleared(m1, d, a, q) && Returned(m, m1, d, a, q)
  {
    forall k | p <= k < q ensures Look(m1, d, k) == Empty && Look(m, d, k) == Empty {
      assert k / NENTRIES == p / NENTRIES;
      RestPage(m, m1, d, a, p, k);
    }
  }

  /** The page tables of d are the same frames in both memories. */
  ghost predicate SameTables(m: Mem, m': Mem, d: nat) {
    forall i :: 0 <= i < NENTRIES ==> At(m', d, i) == At(m, d, i)
  }

  lemma QuietThen(m: Mem, m1: Mem, m2: Mem, q: set<Slot>)
    requires Quiet(m, m1) && m1.dirs == m.dirs && QuietBut(m1, m2, q)
    ensures QuietBut(m, m2, q)
  {
    forall u | AnySlot(m, u) && u !in q ensures SameSlot(m, m2, u) {
      assert AnySlot(m1, u);
      SameTrans(m, m1, m2, u);
    }
  }

  // ----- growing a process -----

  /** The directory entries of d that have a page table. */
  ghost function TableSet(m: Mem, d: nat): set<nat> {
    set i: nat | i < NENTRIES && At(m, d, i).Entry?
  }

  predicate InSpan(i: nat, a: nat, b: nat) { a < b && a / NENTRIES <= i <= (b - 1) / NENTRIES }

  /** The directory entries that pages a..b use. */
  ghost function Span(a: nat, b: nat): set<nat> {
    set i: nat | i < NENTRIES && InSpan(i, a, b)
  }

  /** The page tables that pages a..b of directory d lack. */
  ghost function Missing(m: Mem, d: nat, a: nat, b: nat): nat {
    |Span(a, b) - TableSet(m, d)|
  }

  /** The frames that growing by pages a..b takes: the pages and the missing page tables. */
  ghost function Need(m: Mem, d: nat, a: nat, b: nat): nat
    requires a <= b
  {
    b - a + Missing(m, d, a, b)
  }

  lemma SpanNext(a: nat, p: nat)
    requires a <= p < NPAGES
    ensures Span(a, p + 1) == Span(a, p) + {p / NENTRIES}
  {
    if a < p { assert (p - 1) / NENTRIES == if p % NENTRIES == 0 then p / NENTRIES - 1 else p / NENTRIES; }
    assert p + 1 - 1 == p;
    forall i: nat ensures InSpan(i, a, p + 1) <==> InSpan(i, a, p) || i == p / NENTRIES {}
  }

  lemma SpanGrows(a: nat, p: nat, b: nat)
    requires a <= p <= b
    ensures Span(a, p) <= Span(a, b)
  {
  }

  /** The entries with a page table and those that lack one, after pages a..b are mapped. */
  lemma MissingCount(m: Mem, d: nat, a: nat, b: nat)
    ensures |TableSet(m, d) + Span(a, b)| == |TableSet(m, d)| + Missing(m, d, a, b)
  {
    assert TableSet(m, d) + Span(a, b) == TableSet(m, d) + (Span(a, b) - TableSet(m, d));
  }

  /** A map of pages a..b that stops at page p, for want of that page's table. */
  lemma MissingMore(m: Mem, d: nat, a: nat, p: nat, b: nat)
    requires a <= p < b <= NPAGES && p / NENTRIES !in TableSet(m, d) + Span(a, p)
    ensures |TableSet(m, d) + Span(a, p)| < |TableSet(m, d) + Span(a, b)|
  {
    SpanNext(a, p);
    SpanGrows(a, p + 1, b);
    var x := TableSet(m, d) + Span(a, p);
    assert |x + {p / NENTRIES}| == |x| + 1;
    SubsetAtMost(x + {p / NENTRIES}, TableSet(m, d) + Span(a, b));
  }

  /** A map of pages a..b that stops at page p with no frame left and no table for it. */
  lemma MapStops(m: Mem, d: nat, a: nat, p: nat, b: nat, tables: set<nat>)
    requires a <= p < b <= NPAGES && tables == TableSet(m, d) + Span(a, p) && p / NENTRIES !in tables
    requires |tables| == |m.free| + |TableSet(m, d)|
    ensures Missing(m, d, a, b) > |m.free|
  {
    MissingCount(m, d, a, b);
    MissingMore(m, d, a, p, b);
  }

  lemma NoSpan(a: nat)
    ensures Span(a, a) == {}
  {
  }

  lemma NoTable(m: Mem, d: nat, p: nat)
    requires p < NPAGES
    ensures p / NENTRIES in TableSet(m, d) <==> At(m, d, p / NENTRIES).Entry?
  {
  }

  /** What mapping one page does to the page tables of its directory. */
  lemma TableGain(m: Mem, m': Mem, d: nat, p: nat)
    requires d in m.dirs && d in m'.dirs && p < NPAGES && QuietBut(m, m', PageSlots(d, p)) && At(m', d, p / NENTRIES).Entry?
    ensures TableSet(m', d) == TableSet(m, d) + {p / NENTRIES}
    ensures |TableSet(m', d)| == |TableSet(m, d)| + if At(m, d, p / NENTRIES).Entry? then 0 else 1
  {
    forall i: nat | i < NENTRIES && i != p / NENTRIES ensures At(m', d, i) == At(m, d, i) {
      assert AnySlot(m, Tab(d, i)) && SameSlot(m, m', Tab(d, i));
    }
    var n, x := p / NENTRIES, TableSet(m, d);
    assert TableSet(m', d) == x + {n};
    NoTable(m, d, p);
    if n in x { assert x + {n} == x; } else { assert |x + {n}| == |x| + 1; }
  }

  /** Pages a..b of directory d are zeroed frames that were free. */
  ghost predicate FreshPages(m: Mem, m': Mem, d: nat, a: nat, b: nat) {
    forall q :: a <= q < b ==>
      var e := Look(m', d, q);
      e.Entry? && e.flags == PTE_W + PTE_U && e.frame in m.free && Content(m', e.frame) == ZeroPage()
  }

  lemma FreshStep(m: Mem, m1: Mem, m2: Mem, d: nat, a: nat, p: nat, f: nat)
    requires FreshPages(m, m1, d, a, p) && d in m1.dirs && p < UPAGES && QuietBut(m1, m2, PageSlots(d, p))
    requires Look(m2, d, p) == Entry(f, PTE_W + PTE_U) && f in m.free && Content(m2, f) == ZeroPage()
    ensures FreshPages(m, m2, d, a, p + 1)
  {
    forall q | a <= q < p
      ensures SameSlot(m1, m2, User(d, q / NENTRIES, q % NENTRIES)) && q / NENTRIES < UENTRIES && Look(m2, d, q) == Look(m1, d, q)
    {
      ButPage(m1, m2, d, p, q);
    }
  }

  lemma GrowStep(m: Mem, m1: Mem, m2: Mem, d: nat, a: nat, p: nat, f: nat)
    requires Rest(m, m1, d, a, p) && FreshPages(m, m1, d, a, p) && QuietBut(m1, m2, PageSlots(d, p))
    requires TableSet(m1, d) == TableSet(m, d) + Span(a, p)
    requires m1.dirs == m.dirs == m2.dirs && d in m.dirs && a <= p < UPAGES && At(m2, d, p / NENTRIES).Entry?
    requires Look(m2, d, p) == Entry(f, PTE_W + PTE_U) && f in m.free && Content(m2, f) == ZeroPage()
    ensures Rest(m, m2, d, a, p + 1) && FreshPages(m, m2, d, a, p + 1)
    ensures TableSet(m2, d) == TableSet(m, d) + Span(a, p + 1)
    ensures |TableSet(m2, d)| == |TableSet(m1, d)| + if At(m1, d, p / NENTRIES).Entry? then 0 else 1
  {
    hide Rest, FreshPages, QuietBut, Look, TableSet, Span;
    RestStep(m, m1, m2, d, a, p);
    FreshStep(m, m1, m2, d, a, p, f);
    TableGain(m1, m2, d, p);
    SpanNext(a, p);
  }

  /** A grow that stops at page p with `left` free frames: none, or one and no page table for p. */
  lemma GrowStops(m: Mem, d: nat, a: nat, p: nat, b: nat, left: nat, tables: set<nat>)
    requires a <= p < b <= NPAGES && tables == TableSet(m, d) + Span(a, p)
    requires left + (p - a) + |tables| == |m.free| + |TableSet(m, d)|
    requires left == 0 || (left == 1 && p / NENTRIES !in tables)
    ensures Need(m, d, a, b) > |m.free|
  {
    MissingCount(m, d, a, b);
    SpanGrows(a, p, b);
    SubsetAtMost(tables, TableSet(m, d) + Span(a, b));
    if left == 1 { MissingMore(m, d, a, p, b); }
  }

  /** A grow that got to page p, and was then undone. */
  lemma Undone(m: Mem, m1: Mem, m2: Mem, m3: Mem, d: nat, a: nat, p: nat, b: nat)
    requires Rest(m, m1, d, a, p) && QuietBut(m1, m2, {}) && Rest(m2, m3, d, a, b) && a <= p <= b
    requires m1.dirs == m2.dirs == m.dirs
    ensures Rest(m, m3, d, a, b)
  {
    forall u | AnySlot(m, u) && !Touched(u, d, a, b) ensures SameSlot(m, m3, u) {
      assert !Touched(u, d, a, p) && AnySlot(m1, u) && AnySlot(m2, u);
      SameTrans(m, m1, m2, u);
      SameTrans(m, m2, m3, u);
    }
  }

  lemma QuietAfter(m: Mem, m1: Mem, m2: Mem, d: nat, a: nat, b: nat)
    requires Rest(m, m1, d, a, b) && Cleared(m1, d, a, b) && Quiet(m1, m2) && m1.dirs == m.dirs && d in m.dirs && b <= UPAGES
    ensures Rest(m, m2, d, a, b) && Cleared(m2, d, a, b)
  {
    forall u | AnySlot(m, u) && !Touched(u, d, a, b) ensures SameSlot(m, m2, u) {
      assert AnySlot(m1, u);
      SameTrans(m, m1, m2, u);
    }
    forall q | a <= q < b ensures Look(m2, d, q) == Empty {
      assert SameSlot(m1, m2, User(d, q / NENTRIES, q % NENTRIES)) && Look(m1, d, q) == Empty;
    }
  }

  // ----- dropping a directory -----

  /** Every slot of the other directories is as it was. */
  ghost predicate OthersKept(m: Mem, m': Mem, d: nat) {
    forall u :: AnySlot(m, u) && u.d != d ==> SameSlot(m, m', u)
  }

  /** Every frame that directory d held is in the free list. */
  ghost predicate AllReturned(m: Mem, m': Mem, d: nat) {
    forall u :: ValidSlot(m, u) && u.d == d && Held(m, u).Entry? ==> Held(m, u).frame in m'.free
  }

  /** Conservation: when directory d is gone and nothing else moved, all that d held is free. */
  lemma GoneIsFree(m: Mem, m': Mem, d: nat)
    requires Conserved(m) && Conserved(m') && OthersKept(m, m', d) && m'.dirs == m.dirs - {d}
    requires m'.other == m.other && m'.lo == m.lo && |m'.tab| == |m.tab|
    ensures AllReturned(m, m', d)
  {
    forall u | ValidSlot(m, u) && u.d == d && Held(m, u).Entry? ensures Held(m, u).frame in m'.free {
      var f := Held(m, u).frame;
      SlotFrames(m, u);
      if f !in m'.free {
        assert Allocatable(m', f) && Owned(m', f);
        var v :| ValidSlot(m', v) && Holds(m', v, f);
        assert AnySlot(m, v) && SameSlot(m, m', v);
        Differ(m, u, v);
      }
    }
  }

  /** The page tables in entries i.. of directory d. */
  ghost function TablesFrom(m: Mem, d: nat, i: nat): set<nat> {
    set k | i <= k < NENTRIES && At(m, d, k).Entry? :: At(m, d, k).frame
  }

  lemma NextTable(m: Mem, d: nat, i: nat)
    requires Conserved(m) && d in m.dirs && i < NENTRIES
    ensures var e := At(m, d, i);
      && (e == Empty ==> TablesFrom(m, d, i) == TablesFrom(m, d, i + 1))
      && (e.Entry? ==> e.frame in TablesFrom(m, d, i) && e.frame != d && e.frame !in m.other)
      && (e.Entry? ==> TablesFrom(m, d, i + 1) == TablesFrom(m, d, i) - {e.frame})
  {
    var e := At(m, d, i);
    if e.Entry? {
      SlotFrames(m, Tab(d, i));
      Differ(m, Tab(d, i), Dir(d));
      forall k | i < k < NENTRIES && At(m, d, k).Entry? ensures At(m, d, k).frame != e.frame {
        Differ(m, Tab(d, i), Tab(d, k));
      }
    }
  }

  lemma QuietTrans(m: Mem, m1: Mem, m2: Mem)
    requires Quiet(m, m1) && m1.dirs == m.dirs && Quiet(m1, m2)
    ensures Quiet(m, m2)
  {
    forall u | AnySlot(m, u) ensures SameSlot(m, m2, u) {
      assert AnySlot(m1, u);
      SameTrans(m, m1, m2, u);
    }
  }

  lemma UnmappedDir(m: Mem, d: nat)
    requires Cleared(m, d, 0, UPAGES)
    ensures NoPages(m, d)
  {
    forall i, j | 0 <= i < UENTRIES && 0 <= j < NENTRIES ensures Held(m, User(d, i, j)) == Empty {
      assert Look(m, d, i * NENTRIES + j) == Empty;
    }
  }

  /** The pages went first, then the directory, then its tables one by one. */
  lemma OthersChain(m: Mem, m1: Mem, m2: Mem, m3: Mem, d: nat)
    requires Rest(m, m1, d, 0, UPAGES) && m1.dirs == m.dirs && m2.dirs == m.dirs - {d} && m2.data == m1.data
    requires forall u :: AnySlot(m1, u) && u.d != d ==> Held(m2, u) == Held(m1, u)
    requires Quiet(m2, m3)
    ensures OthersKept(m, m3, d)
  {
    forall u | AnySlot(m, u) && u.d != d ensures SameSlot(m, m3, u) {
      assert !Touched(u, d, 0, UPAGES) && AnySlot(m1, u) && AnySlot(m2, u);
      assert SameSlot(m1, m2, u);
      SameTrans(m, m1, m2, u);
      SameTrans(m, m2, m3, u);
    }
  }

  // ----- the kernel's mappings -----

  /** A row of kmap, in bytes. */
  datatype Region = Region(virt: nat, start: nat, stop: nat, perm: nat)

  /** phys_end - phys_start in 32 bits. */
  function Bytes(r: Region): nat { (r.stop - r.start) % UINT }

  function First(r: Region): nat { r.virt / PGSIZE }

  /** The page of the last byte. */
  function Last(r: Region): (l: int)
    ensures -1 <= l
  {
    (r.virt + Bytes(r) - 1) / PGSIZE
  }

  predicate RegionOk(r: Region) {
    0 < Bytes(r) && r.virt + Bytes(r) <= UINT && r.start % PGSIZE == 0
  }

  /** The regions lie in the kernel half, in order and apart. */
  ghost predicate KmapOk(k: seq<Region>) {
    && (forall x :: 0 <= x < |k| ==> RegionOk(k[x]) && KERNBASE <= k[x].virt)
    && (forall x, y :: 0 <= x < y < |k| ==> Last(k[x]) < First(k[y]))
  }

  predicate Covers(r: Region, q: nat) { First(r) <= q <= Last(r) }

  function RegionEntry(r: Region, q: nat): Entry
    requires Covers(r, q)
  {
    Entry(r.start / PGSIZE + (q - First(r)), r.perm)
  }

  /** What the kernel's table says of page q. */
  function KernelMap(k: seq<Region>, q: nat): Entry {
    if k == [] then Empty
    else if Covers(k[|k| - 1], q) then RegionEntry(k[|k| - 1], q)
    else KernelMap(k[..|k| - 1], q)
  }

  const EXTMEM: nat := 0x10_0000
  const PHYSTOP: nat := 0xE00_0000
  const DEVSPACE: nat := 0xFE00_0000

  /** kmap, for a kernel whose data starts at virtual address data. */
  function Kmap(data: nat): seq<Region>
    requires KERNBASE + EXTMEM < data < KERNBASE + PHYSTOP
  {
    [Region(KERNBASE, 0, EXTMEM, PTE_W),
     Region(KERNBASE + EXTMEM, EXTMEM, data - KERNBASE, 0),
     Region(data, data - KERNBASE, PHYSTOP, PTE_W),
     Region(DEVSPACE, DEVSPACE, 0, PTE_W)]
  }

  /** xv6's own table is in order and apart when data is page aligned, as the linker script has it. */
  lemma KmapIsOk(data: nat)
    requires KERNBASE + EXTMEM < data < KERNBASE + PHYSTOP && data % PGSIZE == 0
    ensures KmapOk(Kmap(data))
  {
    var k := Kmap(data);
    assert Bytes(k[1]) == data - KERNBASE - EXTMEM && Bytes(k[2]) == PHYSTOP + KERNBASE - data;
    assert First(k[1]) == 0x8_0100 && Last(k[1]) == data / PGSIZE - 1;
    assert First(k[2]) == data / PGSIZE && Last(k[2]) < First(k[3]) && Last(k[3]) == 0xF_FFFF;
    assert RegionOk(k[0]) && RegionOk(k[1]) && RegionOk(k[2]) && RegionOk(k[3]);
  }

  /** Every directory that setupkvm makes from kmap maps its first kernel page to frame 0. */
  lemma KmapFirstPage(data: nat)
    requires KERNBASE + EXTMEM < data < KERNBASE + PHYSTOP && data % PGSIZE == 0
    ensures KernelMap(Kmap(data), UPAGES) == Entry(0, PTE_W)
  {
    var k := Kmap(data);
    KmapIsOk(data);
    assert Covers(k[0], UPAGES) && !Covers(k[1], UPAGES) && !Covers(k[2], UPAGES) && !Covers(k[3], UPAGES);
    assert k[..3][..2] == k[..2] && k[..2][..1] == k[..1];
    assert KernelMap(k[..1], UPAGES) == RegionEntry(k[0], UPAGES);
    assert KernelMap(k, UPAGES) == KernelMap(k[..3], UPAGES) == KernelMap(k[..2], UPAGES) == KernelMap(k[..1], UPAGES);
  }

  lemma MapOfFour(k: seq<Region>, q: nat)
    requires |k| == 4
    ensures KernelMap(k, q) ==
      if Covers(k[3], q) then RegionEntry(k[3], q) else if Covers(k[2], q) then RegionEntry(k[2], q)
      else if Covers(k[1], q) then RegionEntry(k[1], q) else if Covers(k[0], q) then RegionEntry(k[0], q) else Empty
  {
    hide Covers, RegionEntry;
    assert k[..4][..3] == k[..3] && k[..3][..2] == k[..2] && k[..2][..1] == k[..1] && k[..1][..0] == [];
    assert KernelMap(k[..1], q) == if Covers(k[0], q) then RegionEntry(k[0], q) else Empty;
    assert KernelMap(k[..2], q) == if Covers(k[1], q) then RegionEntry(k[1], q) else KernelMap(k[..1], q);
    assert KernelMap(k[..3], q) == if Covers(k[2], q) then RegionEntry(k[2], q) else KernelMap(k[..2], q);
  }

  /** The kernel's address space, page by page: physical memory from KERNBASE on, the devices at their own
      addresses, and nothing else.  No page is for the user, and only text and read-only data, between
      EXTMEM and the kernel's data, cannot be written. */
  lemma KmapPages(data: nat, q: nat)
    requires KERNBASE + EXTMEM < data < KERNBASE + PHYSTOP && data % PGSIZE == 0 && q < NPAGES
    ensures var readonly := KERNBASE + EXTMEM <= q * PGSIZE < data;
      KernelMap(Kmap(data), q) ==
        if KERNBASE <= q * PGSIZE < KERNBASE + PHYSTOP then Entry(q - KERNBASE / PGSIZE, if readonly then 0 else PTE_W)
        else if DEVSPACE <= q * PGSIZE then Entry(q, PTE_W)
        else Empty
    ensures !Has(0, PTE_W) && !Has(0, PTE_U) && Has(PTE_W, PTE_W) && !Has(PTE_W, PTE_U)
  {
    var k := Kmap(data);
    MapOfFour(k, q);
    hide KernelMap;
    assert First(k[0]) == 0x8_0000 && Last(k[0]) == 0x8_00FF;
    assert Bytes(k[1]) == data - KERNBASE - EXTMEM && Bytes(k[2]) == PHYSTOP + KERNBASE - data;
    assert First(k[1]) == 0x8_0100 && Last(k[1]) == data / PGSIZE - 1;
    assert First(k[2]) == data / PGSIZE && Last(k[2]) == 0x8_DFFF;
    assert First(k[3]) == 0xF_E000 && Last(k[3]) == 0xF_FFFF;
    assert k[2].start / PGSIZE == data / PGSIZE - 0x8_0000;
  }

  /** The frames that the user pages of a region take from the caller, up to page p. */
  ghost function UserFrames(r: Region, p: nat): set<nat> {
    set q: nat | q < p && Covers(r, q) && q < UPAGES :: RegionEntry(r, q).frame
  }

  /** The directory entries that the kernel's table uses. */
  ghost function KernelSpan(k: seq<Region>): set<nat> {
    if k == [] then {}
    else KernelSpan(k[..|k| - 1]) + Span(First(k[|k| - 1]), Last(k[|k| - 1]) + 1)
  }

  lemma NoRegions()
    ensures KernelSpan([]) == {}
  {
  }

  lemma KernelSpanNext(k: seq<Region>, n: nat)
    requires n < |k|
    ensures KernelSpan(k[..n + 1]) == KernelSpan(k[..n]) + Span(First(k[n]), Last(k[n]) + 1)
  {
    assert k[..n + 1][..n] == k[..n];
  }

  /** A region of the kernel half takes no frame from the caller. */
  lemma KernelFrames(r: Region, p: nat)
    requires KERNBASE <= r.virt
    ensures UserFrames(r, p) == {}
  {
  }

  lemma RegionBounds(r: Region)
    requires RegionOk(r)
    ensures First(r) <= Last(r) < NPAGES && UserFrames(r, First(r)) == {}
  {
  }

  /** The frame of page p is not among those taken before it. */
  lemma NextFrame(r: Region, p: nat)
    requires Covers(r, p)
    ensures p < UPAGES ==> RegionEntry(r, p).frame in UserFrames(r, Last(r) + 1) && RegionEntry(r, p).frame !in UserFrames(r, p)
    ensures UserFrames(r, p + 1) == UserFrames(r, p) + if p < UPAGES then {RegionEntry(r, p).frame} else {}
  {
  }

  /** mappages has done the pages of region k below p: they are mapped, nothing else changed, and the
      frames went into missing page tables. */
  ghost predicate RegionDone(m: Mem, m': Mem, d: nat, k: Region, p: nat)
    requires p <= Last(k) + 1
  {
    && m'.dirs == m.dirs && |m'.tab| == |m.tab| && m'.other == m.other - UserFrames(k, p)
    && Rest(m, m', d, First(k), p)
    && (forall q :: First(k) <= q < p ==> Look(m', d, q) == RegionEntry(k, q))
    && TableSet(m', d) == TableSet(m, d) + Span(First(k), p)
    && |m'.free| + |TableSet(m', d)| == |m.free| + |TableSet(m, d)|
  }

  lemma RegionStart(m: Mem, d: nat, k: Region)
    requires RegionOk(k)
    ensures First(k) <= Last(k) < NPAGES && RegionDone(m, m, d, k, First(k))
  {
    RegionBounds(k);
    NoSpan(First(k));
  }

  lemma RegionStep(m: Mem, m1: Mem, m2: Mem, d: nat, k: Region, p: nat)
    requires First(k) <= p <= Last(k) < NPAGES && RegionDone(m, m1, d, k, p) && d in m.dirs && m2.dirs == m.dirs && |m2.tab| == |m.tab|
    requires QuietBut(m1, m2, PageSlots(d, p)) && Look(m2, d, p) == RegionEntry(k, p) && At(m2, d, p / NENTRIES).Entry?
    requires m2.other == if p < UPAGES then m1.other - {RegionEntry(k, p).frame} else m1.other
    requires |m2.free| + (if At(m1, d, p / NENTRIES).Entry? then 0 else 1) == |m1.free|
    ensures RegionDone(m, m2, d, k, p + 1)
  {
    hide Rest, QuietBut, Look, TableSet, Span, UserFrames;
    RestStep(m, m1, m2, d, First(k), p);
    TableGain(m1, m2, d, p);
    SpanNext(First(k), p);
    NextFrame(k, p);
    forall q | First(k) <= q < p ensures Look(m2, d, q) == RegionEntry(k, q) { ButPage(m1, m2, d, p, q); }
  }

  /** The frame for page p is still with the caller, and the page is as it was. */
  lemma RegionPage(m: Mem, m1: Mem, d: nat, k: Region, p: nat)
    requires First(k) <= p <= Last(k) < NPAGES && RegionDone(m, m1, d, k, p) && d in m.dirs && UserFrames(k, Last(k) + 1) <= m.other
    ensures p < UPAGES ==> RegionEntry(k, p).frame in m1.other
    ensures Look(m1, d, p) == Look(m, d, p)
  {
    NextFrame(k, p);
    RestPage(m, m1, d, First(k), p, p);
  }

  lemma RegionStops(m: Mem, m1: Mem, d: nat, k: Region, p: nat)
    requires First(k) <= p <= Last(k) < NPAGES && RegionDone(m, m1, d, k, p) && m1.free == [] && At(m1, d, p / NENTRIES) == Empty
    ensures Missing(m, d, First(k), Last(k) + 1) > |m.free|
  {
    NoTable(m1, d, p);
    MapStops(m, d, First(k), p, Last(k) + 1, TableSet(m1, d));
  }

  lemma RegionEnd(m: Mem, m': Mem, d: nat, k: Region)
    requires RegionDone(m, m', d, k, Last(k) + 1)
    ensures |m'.free| + Missing(m, d, First(k), Last(k) + 1) == |m.free|
  {
    MissingCount(m, d, First(k), Last(k) + 1);
  }

  lemma {:induction false} KernelSpanGrows(k: seq<Region>, n: nat)
    requires n <= |k|
    ensures KernelSpan(k[..n]) <= KernelSpan(k)
    decreases |k|
  {
    if n < |k| {
      var pre := k[..|k| - 1];
      assert pre[..n] == k[..n];
      KernelSpanGrows(pre, n);
    } else {
      assert k[..n] == k;
    }
  }

  /** The table maps nothing of the pages that only later regions cover, nor any user page. */
  lemma {:induction false} KernelMapApart(k: seq<Region>, q: nat)
    requires forall x :: 0 <= x < |k| ==> RegionOk(k[x]) && !Covers(k[x], q)
    ensures KernelMap(k, q) == Empty
  {
    if k != [] { KernelMapApart(k[..|k| - 1], q); }
  }

  /** Directory d maps exactly what the table says. */
  ghost predicate MapIs(m: Mem, d: nat, k: seq<Region>) {
    forall q :: 0 <= q < NPAGES ==> Look(m, d, q) == KernelMap(k, q)
  }

  lemma MapStep(m: Mem, m': Mem, d: nat, k: seq<Region>, n: nat)
    requires d in m.dirs && n < |k| && KmapOk(k) && MapIs(m, d, k[..n]) && Rest(m, m', d, First(k[n]), Last(k[n]) + 1)
    requires forall q :: First(k[n]) <= q < Last(k[n]) + 1 ==> Look(m', d, q) == RegionEntry(k[n], q)
    ensures MapIs(m', d, k[..n + 1])
  {
    assert k[..n + 1][..n] == k[..n];
    forall q | 0 <= q < NPAGES ensures Look(m', d, q) == KernelMap(k[..n + 1], q) {
      if !Covers(k[n], q) { RestPage(m, m', d, First(k[n]), Last(k[n]) + 1, q); }
    }
  }

  /** The pages of region n are not mapped by the regions before it, so setupkvm never panics. */
  lemma NoRemap(m: Mem, d: nat, k: seq<Region>, n: nat)
    requires n < |k| && KmapOk(k) && MapIs(m, d, k[..n])
    ensures forall q :: Covers(k[n], q) ==> Look(m, d, q) == Empty
  {
    forall q | Covers(k[n], q) ensures Look(m, d, q) == Empty {
      KernelMapApart(k[..n], q);
    }
  }

  lemma QuietRest(m: Mem, m1: Mem, m2: Mem, d: nat, a: nat, b: nat)
    requires Quiet(m, m1) && m.dirs <= m1.dirs && d !in m.dirs && Rest(m1, m2, d, a, b)
    ensures Quiet(m, m2)
  {
    forall u | AnySlot(m, u) ensures SameSlot(m, m2, u) {
      assert AnySlot(m1, u) && !Touched(u, d, a, b);
      SameTrans(m, m1, m2, u);
    }
  }

  lemma QuietOthers(m: Mem, m1: Mem, m2: Mem, d: nat)
    requires Quiet(m, m1) && m.dirs <= m1.dirs && d !in m.dirs && OthersKept(m1, m2, d)
    ensures Quiet(m, m2)
  {
    forall u | AnySlot(m, u) ensures SameSlot(m, m2, u) {
      assert AnySlot(m1, u);
      SameTrans(m, m1, m2, u);
    }
  }

  /** One round of setupkvm. */
  lemma SetupStep(m: Mem, m1: Mem, m2: Mem, d: nat, k: seq<Region>, n: nat)
    requires n < |k| && KmapOk(k) && RegionDone(m1, m2, d, k[n], Last(k[n]) + 1)
    requires Quiet(m, m1) && m.dirs <= m1.dirs && d in m1.dirs && d !in m.dirs && MapIs(m1, d, k[..n])
    requires TableSet(m1, d) == KernelSpan(k[..n]) && |m1.free| + 1 + |KernelSpan(k[..n])| == |m.free|
    ensures Quiet(m, m2) && MapIs(m2, d, k[..n + 1]) && m2.other == m1.other
    ensures TableSet(m2, d) == KernelSpan(k[..n + 1]) && |m2.free| + 1 + |KernelSpan(k[..n + 1])| == |m.free|
  {
    hide Quiet, Rest, TableSet, Span, KernelSpan, UserFrames, MapIs, Missing, Look, First, Last;
    KernelFrames(k[n], Last(k[n]) + 1);
    KernelSpanNext(k, n);
    QuietRest(m, m1, m2, d, First(k[n]), Last(k[n]) + 1);
    MapStep(m1, m2, d, k, n);
  }

  /** setupkvm runs out of memory in round n. */
  lemma SetupStops(m: Mem, m1: Mem, m2: Mem, d: nat, k: seq<Region>, n: nat, upto: nat)
    requires n < |k| && KmapOk(k) && upto <= Last(k[n]) + 1 && RegionDone(m1, m2, d, k[n], upto)
    requires Quiet(m, m1) && m.dirs <= m1.dirs && d !in m.dirs && TableSet(m1, d) == KernelSpan(k[..n])
    requires |m1.free| + 1 + |KernelSpan(k[..n])| == |m.free| && Missing(m1, d, First(k[n]), Last(k[n]) + 1) > |m1.free|
    ensures Quiet(m, m2) && m2.other == m1.other && 1 + |KernelSpan(k)| > |m.free|
  {
    hide Quiet, Rest, TableSet, Span, KernelSpan, UserFrames, Missing, Look, First, Last;
    KernelFrames(k[n], upto);
    KernelSpanNext(k, n);
    QuietRest(m, m1, m2, d, First(k[n]), upto);
    MissingCount(m1, d, First(k[n]), Last(k[n]) + 1);
    KernelSpanGrows(k, n + 1);
    SubsetAtMost(KernelSpan(k[..n + 1]), KernelSpan(k));
  }

  lemma NewDirEmpty(m: Mem, f: nat)
    requires Conserved(m) && f in m.other && f < |m.tab|
    ensures f !in m.dirs && Conserved(AddDir(m, f)) && Quiet(m, AddDir(m, f)) && MapIs(AddDir(m, f), f, [])
    ensures TableSet(AddDir(m, f), f) == {}
  {
    AddDirConserved(m, f);
    var m' := AddDir(m, f);
    forall u | AnySlot(m, u) ensures SameSlot(m, m', u) {
      assert AnySlot(m', u);
    }
    forall q | 0 <= q < NPAGES ensures Look(m', f, q) == Empty {
      assert AnySlot(m', User(f, q / NENTRIES, q % NENTRIES));
    }
  }

  // ----- copying a process -----

  datatype Copy = Copied(d: nat) | NoRoom | Unmapped

  /** Pages a..b of directory c hold what those of d hold, with the same flags, in frames of their own. */
  ghost predicate SamePages(m: Mem, d: nat, c: nat, b: nat) {
    forall q :: 0 <= q < b ==>
      var e, x := Look(m, d, q), Look(m, c, q);
      e.Entry? && x.Entry? && e.flags == x.flags && e.frame != x.frame && Content(m, e.frame) == Content(m, x.frame)
  }

  /** The first unmapped page of directory d among p..b, or b. */
  function Leading(m: Mem, d: nat, p: nat, b: nat): nat
    decreases b - p
  {
    if p >= b then b else if Look(m, d, p) == Empty then p else Leading(m, d, p + 1, b)
  }

  lemma {:induction false} LeadingBounds(m: Mem, d: nat, p: nat, b: nat)
    requires p <= b
    ensures p <= Leading(m, d, p, b) <= b && (forall q :: p <= q < Leading(m, d, p, b) ==> Look(m, d, q).Entry?)
    ensures Leading(m, d, p, b) < b ==> Look(m, d, Leading(m, d, p, b)) == Empty
    decreases b - p
  {
    hide Look;
    if p < b && Look(m, d, p).Entry? { LeadingBounds(m, d, p + 1, b); }
  }

  /** The frames that a copy of b pages takes: the directory, its page tables and the pages. */
  ghost function CopyNeed(k: seq<Region>, b: nat): nat { 1 + |KernelSpan(k) + Span(0, b)| + b }

  /** What a copy that got to page p has taken is no more than what it needs, and less if the table
      of page p is missing. */
  lemma CopyNeeds(k: seq<Region>, p: nat, b: nat)
    requires p <= b <= NPAGES
    ensures 1 + |KernelSpan(k)| <= CopyNeed(k, b)
    ensures 1 + |KernelSpan(k) + Span(0, p)| + p <= CopyNeed(k, b) - (b - p)
    ensures p == b ==> 1 + |KernelSpan(k) + Span(0, p)| + p == CopyNeed(k, b)
    ensures p < b && p / NENTRIES !in KernelSpan(k) + Span(0, p) ==> 1 + |KernelSpan(k) + Span(0, p)| + p + 1 < CopyNeed(k, b)
  {
    SpanGrows(0, p, b);
    SubsetAtMost(KernelSpan(k), KernelSpan(k) + Span(0, b));
    SubsetAtMost(KernelSpan(k) + Span(0, p), KernelSpan(k) + Span(0, b));
    if p < b && p / NENTRIES !in KernelSpan(k) + Span(0, p) {
      SpanNext(0, p);
      SpanGrows(0, p + 1, b);
      var x := KernelSpan(k) + Span(0, p);
      assert |x + {p / NENTRIES}| == |x| + 1;
      SubsetAtMost(x + {p / NENTRIES}, KernelSpan(k) + Span(0, b));
    }
  }

  /** From page b on, directory c maps exactly what the kernel's table says. */
  ghost predicate MapFrom(m: Mem, c: nat, k: seq<Region>, b: nat) {
    forall q :: b <= q < NPAGES ==> Look(m, c, q) == KernelMap(k, q)
  }

  /** Page p of d has been copied to c. */
  ghost predicate CopyStep(m: Mem, m': Mem, d: nat, c: nat, p: nat) {
    var e, x := Look(m, d, p), Look(m', c, p);
    && QuietBut(m, m', PageSlots(c, p))
    && e.Entry? && x.Entry? && x.flags == e.flags && x.frame != e.frame && Content(m', x.frame) == Content(m, e.frame)
  }

  lemma CopyMore(m: Mem, m': Mem, d: nat, c: nat, k: seq<Region>, p: nat)
    requires d in m.dirs && c in m.dirs && c != d && p < UPAGES && CopyStep(m, m', d, c, p)
    requires SamePages(m, d, c, p) && MapFrom(m, c, k, p)
    ensures SamePages(m', d, c, p + 1) && MapFrom(m', c, k, p + 1)
  {
    forall q | 0 <= q <= p
      ensures var u := User(d, q / NENTRIES, q % NENTRIES); SameSlot(m, m', u) && u.i < UENTRIES
      ensures Look(m', d, q) == Look(m, d, q)
    {
      assert AnySlot(m, User(d, q / NENTRIES, q % NENTRIES));
    }
    forall q | 0 <= q < NPAGES && q != p
      ensures SameSlot(m, m', User(c, q / NENTRIES, q % NENTRIES)) && Look(m', c, q) == Look(m, c, q)
    {
      ButPage(m, m', c, p, q);
    }
  }

  lemma QuietPage(m: Mem, m1: Mem, m2: Mem, c: nat, p: nat)
    requires Quiet(m, m1) && m.dirs <= m1.dirs && c !in m.dirs && QuietBut(m1, m2, PageSlots(c, p))
    ensures Quiet(m, m2)
  {
    forall u | AnySlot(m, u) ensures SameSlot(m, m2, u) {
      assert AnySlot(m1, u) && u !in PageSlots(c, p);
      SameTrans(m, m1, m2, u);
    }
  }

  lemma StartCopy(m: Mem, d: nat, c: nat, k: seq<Region>)
    requires MapIs(m, c, k)
    ensures SamePages(m, d, c, 0) && MapFrom(m, c, k, 0)
  {
  }

  lemma FreeUserPage(m: Mem, c: nat, k: seq<Region>, p: nat)
    requires MapFrom(m, c, k, p) && p < UPAGES && KmapOk(k)
    ensures Look(m, c, p) == Empty
  {
    KernelMapApart(k, p);
  }

  lemma QuietLook(m: Mem, m': Mem, d: nat, p: nat)
    requires Quiet(m, m') && d in m.dirs && p < NPAGES
    ensures Look(m', d, p) == Look(m, d, p)
  {
    assert SameSlot(m, m', User(d, p / NENTRIES, p % NENTRIES));
  }

  /** A page's entry, through its page table. */
  lemma LookAt(m: Mem, d: nat, p: nat)
    requires d in m.dirs && p < NPAGES
    ensures At(m, d, p / NENTRIES) == Empty ==> Look(m, d, p) == Empty
    ensures At(m, d, p / NENTRIES).Entry? ==> Look(m, d, p) == At(m, At(m, d, p / NENTRIES).frame, p % NENTRIES)
  {
  }

  lemma QuietEmpty(m: Mem, m1: Mem, m2: Mem)
    requires Quiet(m, m1) && m.dirs <= m1.dirs && QuietBut(m1, m2, {})
    ensures Quiet(m, m2)
  {
    forall u | AnySlot(m, u) ensures SameSlot(m, m2, u) {
      assert AnySlot(m1, u);
      SameTrans(m, m1, m2, u);
    }
  }

  lemma QuietCopy(m: Mem, m1: Mem, m2: Mem, d: nat, c: nat, p: nat)
    requires Quiet(m, m1) && m.dirs <= m1.dirs && c !in m.dirs && CopyStep(m1, m2, d, c, p)
    ensures Quiet(m, m2)
  {
    QuietPage(m, m1, m2, c, p);
  }

  lemma QuietCleared(m: Mem, m1: Mem, m2: Mem, d: nat, i: nat, j: nat)
    requires m1.dirs == m.dirs && m1.data == m.data && d in m.dirs && i < NENTRIES && j < NENTRIES
    requires forall u :: AnySlot(m, u) ==> Held(m1, u) == if u == User(d, i, j) then Empty else Held(m, u)
    requires Quiet(m1, m2) && m2.dirs == m.dirs
    ensures QuietBut(m, m2, {User(d, i, j)}) && Held(m2, User(d, i, j)) == Empty && SameTables(m, m2, d)
  {
    assert AnySlot(m, User(d, i, j)) && SameSlot(m1, m2, User(d, i, j));
    forall u | AnySlot(m, u) && u != User(d, i, j) ensures SameSlot(m, m2, u) {
      assert SameSlot(m1, m2, u);
    }
    forall k | 0 <= k < NENTRIES ensures At(m2, d, k) == At(m, d, k) {
      assert SameSlot(m, m2, Tab(d, k));
    }
  }

  // ----- what the operations grant -----

  /** Pages a..b of directory d grant what the flags say. */
  ghost predicate GrantAll(m: Mem, d: nat, a: nat, b: nat, flags: nat) {
    forall q :: a <= q < b ==>
      (Grants(m, d, q, PTE_W) <==> Has(flags, PTE_W)) && (Grants(m, d, q, PTE_U) <==> Has(flags, PTE_U))
  }

  lemma GrantFlags(m: Mem, d: nat, a: nat, b: nat, flags: nat)
    requires Open(m) && d in m.dirs && b <= NPAGES
    requires forall q :: a <= q < b ==> Look(m, d, q).Entry? && Look(m, d, q).flags == flags
    ensures GrantAll(m, d, a, b, flags)
  {
    hide Has, Open, Grants, Look;
    forall q | a <= q < b
      ensures (Grants(m, d, q, PTE_W) <==> Has(flags, PTE_W)) && (Grants(m, d, q, PTE_U) <==> Has(flags, PTE_U))
    {
      GrantsIs(m, d, q);
    }
  }

  /** New pages can be read and written by the process. */
  lemma FreshGrant(m: Mem, m': Mem, d: nat, a: nat, b: nat)
    requires Open(m') && d in m'.dirs && b <= NPAGES && FreshPages(m, m', d, a, b)
    ensures forall q :: a <= q < b ==> Grants(m', d, q, PTE_W) && Grants(m', d, q, PTE_U)
  {
    GrantFlags(m', d, a, b, PTE_W + PTE_U);
    hide Grants;
    assert Has(PTE_W + PTE_U, PTE_W) && Has(PTE_W + PTE_U, PTE_U);
  }

  lemma RegionGrant(m: Mem, m': Mem, d: nat, k: Region)
    requires Open(m') && d in m'.dirs && RegionOk(k) && RegionDone(m, m', d, k, Last(k) + 1)
    ensures GrantAll(m', d, First(k), Last(k) + 1, k.perm)
  {
    RegionBounds(k);
    hide Open, Look, Rest, TableSet, Span;
    GrantFlags(m', d, First(k), Last(k) + 1, k.perm);
  }

  /** Every page of directory d grants what the kernel's table says, an unmapped one nothing. */
  ghost predicate MapGrants(m: Mem, d: nat, k: seq<Region>) {
    forall q :: 0 <= q < NPAGES ==>
      var e := KernelMap(k, q);
      && (Grants(m, d, q, PTE_W) <==> e.Entry? && Has(e.flags, PTE_W))
      && (Grants(m, d, q, PTE_U) <==> e.Entry? && Has(e.flags, PTE_U))
  }

  lemma MapGrant(m: Mem, d: nat, k: seq<Region>)
    requires Open(m) && d in m.dirs && MapIs(m, d, k)
    ensures MapGrants(m, d, k)
  {
    hide Has, Open, Grants, Look, KernelMap;
    forall q | 0 <= q < NPAGES
      ensures var e := KernelMap(k, q);
        && (Grants(m, d, q, PTE_W) <==> e.Entry? && Has(e.flags, PTE_W))
        && (Grants(m, d, q, PTE_U) <==> e.Entry? && Has(e.flags, PTE_U))
    {
      GrantsIs(m, d, q);
    }
  }

  /** The first b pages of c grant what those of d grant. */
  ghost predicate SameGrants(m: Mem, d: nat, c: nat, b: nat) {
    forall q :: 0 <= q < b ==>
      (Grants(m, c, q, PTE_W) <==> Grants(m, d, q, PTE_W)) && (Grants(m, c, q, PTE_U) <==> Grants(m, d, q, PTE_U))
  }

  lemma CopyGrant(m: Mem, d: nat, c: nat, b: nat)
    requires Open(m) && d in m.dirs && c in m.dirs && b <= NPAGES && SamePages(m, d, c, b)
    ensures SameGrants(m, d, c, b)
  {
    hide Has, Open, Grants, Look;
    forall q | 0 <= q < b
      ensures (Grants(m, c, q, PTE_W) <==> Grants(m, d, q, PTE_W)) && (Grants(m, c, q, PTE_U) <==> Grants(m, d, q, PTE_U))
    {
      GrantsIs(m, d, q);
      GrantsIs(m, c, q);
    }
  }
}
