/** The page table operations of vm.c over the page allocator of kalloc.c.  Addresses are used
through their page numbers; a frame number is a physical page number. */
module Vm {
  import opened VmState
  import opened VmView

  class Memory {
    const lo: nat
    var tab: seq<Table>
    var data: seq<Page>
    var freelist: seq<nat>
    ghost var dirs: set<nat>
    ghost var other: set<nat>

    ghost function M(): Mem
      reads this
    {
      Mem(lo, tab, data, freelist, dirs, other)
    }

    ghost predicate Valid()
      reads this
    {
      Conserved(M()) && Open(M()) && 0 < lo && |data| == |tab|
    }

    /** kinit: every frame from the end of the kernel up to PHYSTOP is freed once. */
    constructor (lo: nat, n: nat)
      requires 0 < lo <= n
      ensures Valid() && this.lo == lo && |tab| == n && dirs == {} && other == {}
      ensures forall f :: f in freelist <==> lo <= f < n
    {
      this.lo := lo;
      tab, data, freelist := seq(n, i => JunkTable()), seq(n, i => JunkPage()), [];
      dirs, other := {}, Frames(lo, n);
      new;
      var f := lo;
      while f < n
        invariant lo <= f <= n && this.lo == lo && |tab| == n && Valid()
        invariant dirs == {} && other == Frames(f, n)
        invariant forall g :: g in freelist <==> lo <= g < f
      {
        Kfree(f);
        f := f + 1;
      }
    }

    /** kalloc: the first free frame, or -1. */
    method Kalloc() returns (f: int)
      requires Valid()
      modifies this
      ensures Valid()
      ensures old(freelist) == [] ==> f == -1 && M() == old(M())
      ensures old(freelist) != [] ==> f == old(freelist)[0] && M() == Take(old(M()))
      ensures f >= 0 ==> f in other && f !in old(other) && f < |tab|
      ensures Quiet(old(M()), M())
    {
      if freelist == [] { return -1; }
      TakeConserved(M());
      hide Open;
      f := freelist[0];
      freelist := freelist[1..];
      other := other + {f};
      StillOpen(old(M()), M());
    }

    /** kfree never panics on a frame that its caller has: it lies between end and PHYSTOP. */
    method Kfree(f: nat)
      requires Valid() && f in other
      modifies this
      ensures Valid()
      ensures freelist == [f] + old(freelist) && other == old(other) - {f} && dirs == old(dirs) && |tab| == |old(tab)|
      ensures data == old(data)[f := JunkPage()] && tab == old(tab)[f := JunkTable()]
      ensures Quiet(old(M()), M())
    {
      hide Open;
      QuietScribble(M(), f, JunkTable(), JunkPage());
      tab, data := tab[f := JunkTable()], data[f := JunkPage()];
      GiveConserved(M(), f);
      freelist := [f] + freelist;
      other := other - {f};
      StillOpen(old(M()), M());
    }

    /** memset or memmove over a frame of the caller. */
    method Fill(f: nat, page: Page)
      requires Valid() && f in other
      modifies this
      ensures Valid() && M() == old(M()).(data := old(data)[f := page])
      ensures Quiet(old(M()), M())
    {
      hide Open;
      assert tab[f := tab[f]] == tab;
      QuietScribble(M(), f, tab[f], page);
      data := data[f := page];
      StillOpen(old(M()), M());
    }

    /** walkpgdir: the page table of page p, which it adds when alloc is set; -1 if there is none. */
    method Walkpgdir(d: nat, p: nat, alloc: bool) returns (t: int)
      requires Valid() && d in dirs && p < NPAGES
      modifies this
      ensures Valid() && dirs == old(dirs) && other == old(other) && data == old(data) && |tab| == |old(tab)|
      ensures At(old(M()), d, p / NENTRIES).Entry? ==> M() == old(M())
      ensures At(old(M()), d, p / NENTRIES) == Empty && (!alloc || old(freelist) == []) ==> t < 0 && M() == old(M())
      ensures At(old(M()), d, p / NENTRIES) == Empty && alloc && old(freelist) != [] ==> freelist == old(freelist)[1..]
      ensures t < 0 ==> At(old(M()), d, p / NENTRIES) == Empty && (!alloc || old(freelist) == [])
      ensures t >= 0 ==> At(M(), d, p / NENTRIES).Entry? && At(M(), d, p / NENTRIES).frame == t && t < |tab|
      ensures QuietBut(old(M()), M(), {Tab(d, p / NENTRIES)})
      ensures Passes(At(M(), d, p / NENTRIES))
    {
      var i := p / NENTRIES;
      assert Passes(At(M(), d, i));
      hide Open;
      SlotFrames(M(), Dir(d));
      if tab[d][i].Entry? {
        SlotFrames(M(), Tab(d, i));
        return tab[d][i].frame;
      }
      if !alloc { return -1; }
      t := Kalloc();
      if t < 0 { return; }
      assert SameSlot(old(M()), M(), Tab(d, i));
      AddTableConserved(M(), d, i, t, PTE_W + PTE_U);
      ghost var m := M();
      tab := tab[t := EmptyTable()];
      tab := tab[d := tab[d][i := Entry(t, PTE_W + PTE_U)]];
      other := other - {t};
      assert M() == AddTable(m, d, i, t, PTE_W + PTE_U);
      QuietOpen(old(M()), M(), {Tab(d, i)});
    }

    /** One step of mappages.  A user page takes its frame from the caller; a kernel page maps
    memory that stays with its owner. */
    method MapPage(d: nat, p: nat, f: nat, perm: nat) returns (r: MapResult)
      requires Valid() && d in dirs && p < NPAGES && (p < UPAGES ==> f in other)
      modifies this
      ensures dirs == old(dirs) && data == old(data) && |tab| == |old(tab)|
      ensures r == Remap <==> Look(old(M()), d, p).Entry?
      ensures r == NoMemory <==> At(old(M()), d, p / NENTRIES) == Empty && old(freelist) == []
      ensures Valid()
      ensures r != Mapped ==> M() == old(M())
      ensures r == Mapped ==> Look(M(), d, p) == Entry(f, perm) && At(M(), d, p / NENTRIES).Entry?
      ensures r == Mapped ==> other == if p < UPAGES then old(other) - {f} else old(other)
      ensures r == Mapped ==> freelist == if At(old(M()), d, p / NENTRIES).Entry? then old(freelist) else old(freelist)[1..]
      ensures At(old(M()), d, p / NENTRIES).Entry? ==> At(M(), d, p / NENTRIES) == At(old(M()), d, p / NENTRIES)
      ensures QuietBut(old(M()), M(), PageSlots(d, p))
    {
      hide Open;
      var i, j := p / NENTRIES, p % NENTRIES;
      var t := Walkpgdir(d, p, true);
      if t < 0 { return NoMemory; }
      assert At(old(M()), d, i) == Empty ==> SameSlot(old(M()), M(), User(d, i, j));
      if tab[t][j].Entry? { return Remap; }
      ghost var m := M();
      SlotFrames(m, Tab(d, i));
      if p < UPAGES { PutUserConserved(m, d, i, j, f, perm); } else { PutKernelConserved(m, d, i, j, Entry(f, perm)); }
      tab := tab[t := tab[t][j := Entry(f, perm)]];
      if p < UPAGES { other := other - {f}; }
      QuietOpen(m, M(), {User(d, i, j)});
      r := Mapped;
    }

    /** The step of deallocuvm at a page that is present. */
    method ClearPage(d: nat, p: nat, t: nat)
      requires Valid() && d in dirs && p < UPAGES && Look(M(), d, p).Entry?
      requires At(M(), d, p / NENTRIES).Entry? && At(M(), d, p / NENTRIES).frame == t
      modifies this
      ensures Valid() && dirs == old(dirs) && other == old(other) && |tab| == |old(tab)|
      ensures Look(M(), d, p) == Empty && SameTables(old(M()), M(), d)
      ensures freelist == [Look(old(M()), d, p).frame] + old(freelist)
      ensures QuietBut(old(M()), M(), {User(d, p / NENTRIES, p % NENTRIES)})
    {
      hide Open;
      var i, j := p / NENTRIES, p % NENTRIES;
      ghost var m := M();
      SlotFrames(m, Tab(d, i));
      SlotFrames(m, User(d, i, j));
      ClearUserConserved(m, d, i, j);
      hide Conserved;
      var f := tab[t][j].frame;
      tab := tab[t := tab[t][j := Empty]];
      other := other + {f};
      ghost var m1 := M();
      QuietOpen(m, m1, {User(d, i, j)});
      Kfree(f);
      QuietCleared(m, m1, M(), d, i, j);
    }

    /** deallocuvm unmaps the pages from newsz up to oldsz and frees their frames.  It passes over a
    missing page table in one step.  An oldsz above KERNBASE runs into the first kernel page, which maps
    physical address 0, and panics there. */
    method Deallocuvm(d: nat, oldsz: nat, newsz: nat) returns (r: Growth)
      requires Valid() && d in dirs
      requires oldsz <= KERNBASE || newsz >= oldsz || (newsz <= KERNBASE && Look(M(), d, UPAGES).Entry? && Look(M(), d, UPAGES).frame == 0)
      modifies this
      ensures Valid() && dirs == old(dirs) && other == old(other) && |tab| == |old(tab)|
      ensures r == if newsz >= oldsz then Size(oldsz) else if oldsz > KERNBASE then Panic else Size(newsz)
      ensures var a, b := PageUp(newsz), Min(PageUp(oldsz), UPAGES);
        Cleared(M(), d, a, b) && Returned(old(M()), M(), d, a, b) && Rest(old(M()), M(), d, a, b)
      ensures SameTables(old(M()), M(), d)
    {
      hide Conserved, SameSlot, Rest;
      ghost var m, b := M(), Min(PageUp(oldsz), UPAGES);
      RestRefl(m, d, PageUp(newsz), b);
      RestRefl(m, d, PageUp(newsz), PageUp(newsz));
      if newsz >= oldsz { return Size(oldsz); }
      var a, p := PageUp(newsz), PageUp(newsz);
      while p * PGSIZE < oldsz
        invariant Valid() && dirs == m.dirs && other == m.other && |tab| == |m.tab|
        invariant a <= p <= UPAGES
        invariant Cleared(M(), d, a, p) && Returned(m, M(), d, a, p)
        invariant Rest(m, M(), d, a, Min(p, b)) && SameTables(m, M(), d)
        decreases UPAGES - p
      {
        ghost var m1 := M();
        assert Min(p, b) == p;
        RestPage(m, m1, d, a, p, p);
        var t := Walkpgdir(d, p, false);
        if t < 0 {
          var q := (p / NENTRIES + 1) * NENTRIES;
          RestWiden(m, m1, d, a, p, Min(q, b));
          SkipTable(m, m1, d, a, p, q);
          p := q;
        } else {
          if tab[t][p % NENTRIES].Entry? {
            if tab[t][p % NENTRIES].frame == 0 {
              if p < UPAGES { OwnedFrame(m1, d, p); }
              return Panic;
            }
            ClearPage(d, p, t);
            ClearStep(m, m1, M(), d, a, p);
          } else {
            RestWiden(m, m1, d, a, p, p + 1);
          }
          p := p + 1;
        }
      }
      return Size(newsz);
    }

    /** One round of allocuvm: a zeroed frame at page p. */
    method GrowPage(d: nat, p: nat) returns (r: MapResult, f: int)
      requires Valid() && d in dirs && p < UPAGES
      modifies this
      ensures Valid() && dirs == old(dirs) && |tab| == |old(tab)|
      ensures f < 0 <==> old(freelist) == []
      ensures r == Mapped ==> f >= 0 && f == old(freelist)[0] && other == old(other)
      ensures r == Mapped ==> Look(M(), d, p) == Entry(f, PTE_W + PTE_U) && Content(M(), f) == ZeroPage()
      ensures r == Mapped ==> At(M(), d, p / NENTRIES).Entry?
      ensures r == Mapped ==>
        |freelist| + (if At(old(M()), d, p / NENTRIES).Entry? then 1 else 2) == |old(freelist)|
      ensures forall g :: g in freelist ==> g in old(freelist)
      ensures r == NoMemory ==> QuietBut(old(M()), M(), {}) && other == if f < 0 then old(other) else old(other) + {f}
      ensures r == NoMemory && f >= 0 ==> f !in old(other) && |old(freelist)| == 1 && At(old(M()), d, p / NENTRIES) == Empty
      ensures r == Remap ==> Look(old(M()), d, p).Entry?
      ensures r == Mapped ==> Look(old(M()), d, p) == Empty
      ensures QuietBut(old(M()), M(), PageSlots(d, p))
    {
      ghost var m := M();
      f := Kalloc();
      if f < 0 { return NoMemory, f; }
      ghost var m1 := M();
      Fill(f, ZeroPage());
      ghost var m2 := M();
      QuietThen(m, m1, m2, {});
      assert AnySlot(m, Tab(d, p / NENTRIES)) && AnySlot(m, User(d, p / NENTRIES, p % NENTRIES));
      r := MapPage(d, p, f, PTE_W + PTE_U);
      QuietThen(m, m2, M(), PageSlots(d, p));
    }

    /** allocuvm's way out: unmap the range, and free the frame that could not be mapped. */
    method UndoGrow(d: nat, oldsz: nat, newsz: nat, f: int)
      requires Valid() && d in dirs && oldsz <= newsz < KERNBASE && (f >= 0 ==> f in other)
      modifies this
      ensures Valid() && dirs == old(dirs) && |tab| == |old(tab)| && other == if f < 0 then old(other) else old(other) - {f}
      ensures Rest(old(M()), M(), d, PageUp(oldsz), PageUp(newsz)) && Cleared(M(), d, PageUp(oldsz), PageUp(newsz))
    {
      hide Conserved, SameSlot, Rest, Cleared;
      ghost var m := M();
      assert Min(PageUp(newsz), UPAGES) == PageUp(newsz);
      var _ := Deallocuvm(d, newsz, oldsz);
      if f >= 0 {
        ghost var m1 := M();
        Kfree(f);
        QuietAfter(m, m1, M(), d, PageUp(oldsz), PageUp(newsz));
      }
    }

    /** allocuvm grows a process to newsz.  When the pages are unmapped, it fails exactly when the free
    list has fewer frames than the pages and their page tables need; it then unmaps all it mapped. */
    method Allocuvm(d: nat, oldsz: nat, newsz: nat) returns (r: Growth)
      requires Valid() && d in dirs
      modifies this
      ensures Valid() && dirs == old(dirs) && |tab| == |old(tab)|
      ensures newsz >= KERNBASE ==> r == Size(0) && M() == old(M())
      ensures newsz < KERNBASE && newsz < oldsz ==> r == Size(oldsz) && M() == old(M())
      ensures r == Panic ==> !Cleared(old(M()), d, PageUp(oldsz), PageUp(newsz))
      ensures r != Panic ==> other == old(other) && Rest(old(M()), M(), d, PageUp(oldsz), PageUp(newsz))
      ensures oldsz <= newsz < KERNBASE && r != Panic ==>
        || (r == Size(newsz) && FreshPages(old(M()), M(), d, PageUp(oldsz), PageUp(newsz)))
        || (r == Size(0) && Cleared(M(), d, PageUp(oldsz), PageUp(newsz)))
      ensures 0 < newsz < KERNBASE && oldsz <= newsz && Cleared(old(M()), d, PageUp(oldsz), PageUp(newsz)) ==>
        (r == Size(newsz) <==> Need(old(M()), d, PageUp(oldsz), PageUp(newsz)) <= |old(freelist)|)
      ensures r == Size(newsz) && newsz > 0 ==>
        forall q :: PageUp(oldsz) <= q < PageUp(newsz) ==> Grants(M(), d, q, PTE_W) && Grants(M(), d, q, PTE_U)
    {
      hide Conserved, Open, SameSlot, Rest, QuietBut, PageSlots, Look, TableSet, Span, Missing, Grants;
      RestRefl(M(), d, PageUp(oldsz), PageUp(newsz));
      if newsz >= KERNBASE { return Size(0); }
      if newsz < oldsz { return Size(oldsz); }
      var p := PageUp(oldsz);
      ghost var m, a, b := M(), PageUp(oldsz), PageUp(newsz);
      RestRefl(m, d, a, a);
      NoSpan(a);
      while p * PGSIZE < newsz
        invariant Valid() && dirs == m.dirs && other == m.other && |tab| == |m.tab|
        invariant a <= p <= b
        invariant Rest(m, M(), d, a, p) && FreshPages(m, M(), d, a, p)
        invariant TableSet(M(), d) == TableSet(m, d) + Span(a, p)
        invariant |freelist| + (p - a) + |TableSet(M(), d)| == |m.free| + |TableSet(m, d)|
        invariant forall g :: g in freelist ==> g in m.free
      {
        ghost var m1 := M();
        RestPage(m, m1, d, a, p, p);
        NoTable(m1, d, p);
        var g, f := GrowPage(d, p);
        if g == Remap { return Panic; }
        ghost var m2 := M();
        if g == NoMemory {
          UndoGrow(d, oldsz, newsz, f);
          Undone(m, m1, m2, M(), d, a, p, b);
          GrowStops(m, d, a, p, b, |m1.free|, TableSet(m1, d));
          return Size(0);
        }
        GrowStep(m, m1, m2, d, a, p, f);
        p := p + 1;
      }
      MissingCount(m, d, a, b);
      FreshGrant(m, M(), d, a, b);
      return Size(newsz);
    }

    /** The second half of freevm: the page tables of a directory without pages, and the directory. */
    method FreeTables(d: nat, ghost m: Mem)
      requires Valid() && d !in dirs && d in m.dirs && Conserved(m) && NoPages(m, d)
      requires M() == DropDir(m, d, Tables(m, d))
      modifies this
      ensures Valid() && dirs == old(dirs) && other == m.other && |tab| == |old(tab)|
      ensures Quiet(old(M()), M())
    {
      SlotFrames(m, Dir(d));
      assert Tables(m, d) == TablesFrom(m, d, 0);
      hide Conserved, SameSlot;
      ghost var m0 := M();
      var i := 0;
      while i < NENTRIES
        invariant i <= NENTRIES && Valid() && dirs == m0.dirs && |tab| == |m0.tab| && tab[d] == m.tab[d]
        invariant other == m.other + TablesFrom(m, d, i) + {d}
        invariant Quiet(m0, M())
      {
        ghost var m1 := M();
        NextTable(m, d, i);
        if tab[d][i].Entry? {
          Kfree(tab[d][i].frame);
          QuietTrans(m0, m1, M());
        }
        i := i + 1;
      }
      ghost var m1 := M();
      Kfree(d);
      QuietTrans(m0, m1, M());
    }

    /** freevm gives back all that a directory holds, and nothing else changes. */
    method Freevm(d: nat)
      requires Valid() && d in dirs
      modifies this
      ensures Valid() && dirs == old(dirs) - {d} && other == old(other) && |tab| == |old(tab)|
      ensures OthersKept(old(M()), M(), d) && AllReturned(old(M()), M(), d)
    {
      ghost var m := M();
      var _ := Deallocuvm(d, KERNBASE, 0);
      ghost var m1 := M();
      assert PageUp(KERNBASE) == UPAGES && PageUp(0) == 0;
      UnmappedDir(m1, d);
      DropDirConserved(m1, d);
      dirs, other := dirs - {d}, other + Tables(m1, d) + {d};
      ghost var m2 := M();
      DropOpen(m1, d);
      FreeTables(d, m1);
      OthersChain(m, m1, m2, M(), d);
      GoneIsFree(m, M(), d);
    }

    /** mappages.  The user pages of the region take their frames from the caller.  When its pages are
    unmapped, it fails exactly if fewer frames are free than page tables are missing. */
    method Mappages(d: nat, k: Region) returns (r: MapResult, ghost upto: nat)
      requires Valid() && d in dirs && RegionOk(k) && UserFrames(k, Last(k) + 1) <= other
      modifies this
      ensures Valid() && dirs == old(dirs) && |tab| == |old(tab)| && First(k) <= upto <= Last(k) + 1
      ensures r == Mapped <==> upto == Last(k) + 1
      ensures RegionDone(old(M()), M(), d, k, upto)
      ensures r == Remap ==> exists q :: Covers(k, q) && Look(old(M()), d, q).Entry?
      ensures r == NoMemory ==> Missing(old(M()), d, First(k), Last(k) + 1) > |old(freelist)|
      ensures r == Mapped ==> |freelist| + Missing(old(M()), d, First(k), Last(k) + 1) == |old(freelist)|
      ensures r == Mapped ==> GrantAll(M(), d, First(k), Last(k) + 1, k.perm)
    {
      hide Conserved, Open, GrantAll, Look, QuietBut, PageSlots, UserFrames, RegionOk, First, Last, RegionDone, Missing;
      ghost var m := M();
      RegionStart(m, d, k);
      var p, last, f := First(k), Last(k), k.start / PGSIZE;
      upto := p;
      while true
        invariant First(k) <= p <= last && f == k.start / PGSIZE + (p - First(k)) && upto == p
        invariant Valid() && dirs == m.dirs && |tab| == |m.tab| && RegionDone(m, M(), d, k, p)
        decreases last - p
      {
        ghost var m1 := M();
        RegionPage(m, m1, d, k, p);
        r := MapPage(d, p, f, k.perm);
        if r == Remap {
          assert Covers(k, p);
          return;
        }
        if r == NoMemory {
          RegionStops(m, m1, d, k, p);
          return;
        }
        RegionStep(m, m1, M(), d, k, p);
        upto := p + 1;
        if p == last {
          RegionEnd(m, M(), d, k);
          RegionGrant(m, M(), d, k);
          return;
        }
        p, f := p + 1, f + 1;
      }
    }

    /** A zeroed page directory, or -1 when no frame is free. */
    method NewDir() returns (d: int)
      requires Valid()
      modifies this
      ensures Valid() && |tab| == |old(tab)| && other == old(other) && Quiet(old(M()), M())
      ensures d < 0 <==> old(freelist) == []
      ensures d < 0 ==> M() == old(M())
      ensures d >= 0 ==> d !in old(dirs) && dirs == old(dirs) + {d} && MapIs(M(), d, []) && TableSet(M(), d) == {}
      ensures d >= 0 ==> |freelist| + 1 == |old(freelist)|
    {
      ghost var m := M();
      d := Kalloc();
      if d < 0 { return; }
      ghost var m1 := M();
      NewDirEmpty(m1, d);
      tab := tab[d := EmptyTable()];
      dirs, other := dirs + {d}, other - {d};
      assert M() == AddDir(m1, d);
      AddOpen(m1, d);
      QuietTrans(m, m1, M());
    }

    /** setupkvm: a directory that maps exactly what the kernel's table says.  It fails exactly if fewer
    frames are free than the directory and its page tables take; then all is given back. */
    method Setupkvm(k: seq<Region>) returns (d: int)
      requires Valid() && KmapOk(k)
      modifies this
      ensures Valid() && |tab| == |old(tab)| && other == old(other) && Quiet(old(M()), M())
      ensures d < 0 <==> 1 + |KernelSpan(k)| > |old(freelist)|
      ensures d < 0 ==> dirs == old(dirs)
      ensures d >= 0 ==> d !in old(dirs) && dirs == old(dirs) + {d} && MapIs(M(), d, k) && MapGrants(M(), d, k)
      ensures d >= 0 ==> TableSet(M(), d) == KernelSpan(k) && |freelist| + 1 + |KernelSpan(k)| == |old(freelist)|
    {
      hide Conserved, Open, MapGrants, GrantAll, MapIs, OthersKept, AllReturned, Quiet, TableSet, Missing, Look, UserFrames, First, Last, RegionDone, KernelSpan;
      ghost var m := M();
      d := NewDir();
      if d < 0 { return; }
      var n := 0;
      assert k[..0] == [];
      NoRegions();
      while n < |k|
        invariant n <= |k| && Valid() && dirs == m.dirs + {d} && other == m.other && |tab| == |m.tab|
        invariant Quiet(m, M()) && MapIs(M(), d, k[..n])
        invariant TableSet(M(), d) == KernelSpan(k[..n]) && |freelist| + 1 + |KernelSpan(k[..n])| == |m.free|
      {
        ghost var m1 := M();
        KernelFrames(k[n], Last(k[n]) + 1);
        NoRemap(m1, d, k, n);
        var r;
        ghost var upto;
        r, upto := Mappages(d, k[n]);
        if r == NoMemory {
          ghost var m2 := M();
          SetupStops(m, m1, m2, d, k, n, upto);
          Freevm(d);
          QuietOthers(m, m2, M(), d);
          return -1;
        }
        SetupStep(m, m1, M(), d, k, n);
        n := n + 1;
      }
      assert k[..n] == k;
      MapGrant(M(), d, k);
    }

    /** One round of copyuvm: page p of directory d, with entry e, goes to a frame of its own in c. */
    method CopyPage(d: nat, c: nat, p: nat, e: Entry) returns (ok: bool)
      requires Valid() && d in dirs && c in dirs && c != d && p < UPAGES && e.Entry?
      requires Look(M(), d, p) == e && Look(M(), c, p) == Empty
      modifies this
      ensures Valid() && dirs == old(dirs) && other == old(other) && |tab| == |old(tab)|
      ensures ok ==> CopyStep(old(M()), M(), d, c, p)
      ensures ok ==> TableSet(M(), c) == TableSet(old(M()), c) + {p / NENTRIES}
      ensures ok ==> |freelist| + 1 + |TableSet(M(), c)| == |old(freelist)| + |TableSet(old(M()), c)|
      ensures !ok ==> QuietBut(old(M()), M(), {})
      ensures !ok ==> |old(freelist)| == 0 || (|old(freelist)| == 1 && p / NENTRIES !in TableSet(old(M()), c))
    {
      ghost var m := M();
      ghost var s, x := User(d, p / NENTRIES, p % NENTRIES), User(c, p / NENTRIES, p % NENTRIES);
      SlotFrames(m, s);
      assert AnySlot(m, s) && AnySlot(m, x) && AnySlot(m, Tab(c, p / NENTRIES));
      hide Conserved;
      NoTable(m, c, p);
      hide TableSet;
      var f := Kalloc();
      if f < 0 { return false; }
      ghost var m1 := M();
      Fill(f, data[e.frame]);
      ghost var m2 := M();
      QuietTrans(m, m1, m2);
      assert SameSlot(m, m2, Tab(c, p / NENTRIES));
      var r := MapPage(c, p, f, e.flags);
      QuietThen(m, m2, M(), PageSlots(c, p));
      if r == NoMemory {
        ghost var m3 := M();
        Kfree(f);
        QuietTrans(m, m3, M());
        return false;
      }
      TableGain(m, M(), c, p);
      ok := true;
    }

    /** copyuvm: the copy has the same pages in frames of its own.  It runs out of memory exactly if fewer
    frames are free than the directory, the page tables and the pages in front of the first unmapped one
    take, and then all is given back; with enough frames it panics exactly if a page is unmapped. */
    method Copyuvm(d: nat, sz: nat, k: seq<Region>) returns (r: Copy)
      requires Valid() && d in dirs && sz <= KERNBASE && KmapOk(k)
      modifies this
      ensures Valid() && |tab| == |old(tab)| && other == old(other) && Quiet(old(M()), M())
      ensures r == NoRoom <==> CopyNeed(k, Leading(old(M()), d, 0, PageUp(sz))) > |old(freelist)|
      ensures r != NoRoom ==> (r == Unmapped <==> Leading(old(M()), d, 0, PageUp(sz)) < PageUp(sz))
      ensures r == NoRoom ==> dirs == old(dirs)
      ensures r.Copied? ==> r.d !in old(dirs) && dirs == old(dirs) + {r.d}
      ensures r.Copied? ==> SamePages(M(), d, r.d, PageUp(sz)) && MapFrom(M(), r.d, k, PageUp(sz))
      ensures r.Copied? ==> SameGrants(M(), d, r.d, PageUp(sz))
      ensures r.Copied? ==> |freelist| + CopyNeed(k, PageUp(sz)) == |old(freelist)|
    {
      hide Conserved, Open, MapGrants, SameGrants, SameSlot, OthersKept, AllReturned, CopyStep, SamePages, MapFrom, TableSet, Span, KernelSpan, CopyNeed, Leading, Look;
      ghost var m, b := M(), PageUp(sz);
      ghost var e := Leading(m, d, 0, b);
      LeadingBounds(m, d, 0, b);
      CopyNeeds(k, 0, e);
      var c := Setupkvm(k);
      if c < 0 { return NoRoom; }
      var p := 0;
      StartCopy(M(), d, c, k);
      NoSpan(0);
      while p * PGSIZE < sz
        invariant p <= e && Valid() && dirs == m.dirs + {c} && other == m.other && |tab| == |m.tab|
        invariant Quiet(m, M()) && SamePages(M(), d, c, p) && MapFrom(M(), c, k, p)
        invariant TableSet(M(), c) == KernelSpan(k) + Span(0, p)
        invariant |freelist| + 1 + p + |TableSet(M(), c)| == |m.free|
      {
        ghost var m1 := M();
        QuietLook(m, m1, d, p);
        FreeUserPage(m1, c, k, p);
        CopyNeeds(k, p, e);
        SpanNext(0, p);
        var t := Walkpgdir(d, p, false);
        LookAt(m1, d, p);
        if t < 0 || tab[t][p % NENTRIES].Empty? { return Unmapped; }
        var ok := CopyPage(d, c, p, tab[t][p % NENTRIES]);
        if !ok {
          QuietEmpty(m, m1, M());
          ghost var m2 := M();
          Freevm(c);
          QuietOthers(m, m2, M(), c);
          return NoRoom;
        }
        CopyMore(m1, M(), d, c, k, p);
        QuietCopy(m, m1, M(), d, c, p);
        p := p + 1;
      }
      CopyNeeds(k, b, b);
      CopyGrant(M(), d, c, b);
      return Copied(c);
    }
  }
}
