/** umalloc.c: the storage allocator of section 8.7 of The C Programming Language.  Addresses and
sizes are in units of one Header (8 bytes).  The free list is the map `free` from the address
of each free block to its size: the list is circular and in address order when every block
points to the next higher one and the highest points back to the base. */
module Umalloc {
  import opened Types

  datatype Header = Header(ptr: int, size: int)

  /** Units asked from sbrk at least. */
  const NALLOC: nat := 4096

  /** s follows a in the circular address-ordered list of the keys of f. */
  ghost predicate Follows(f: map<int, int>, base: int, a: int, s: int) {
    && s in f
    && if s > a then forall k :: k in f ==> k <= a || s <= k
       else s == base && forall k :: k in f ==> k <= a
  }

  /** The base is an empty block below all others. */
  ghost predicate BaseOk(f: map<int, int>, base: int) {
    base in f && f[base] == 0 && forall a :: a in f ==> base <= a
  }

  /** The header at a has a's size and points to a's follower. */
  ghost predicate NodeOk(mem: map<int, Header>, f: map<int, int>, base: int, a: int) {
    a in f && a in mem && mem[a].size == f[a] && Follows(f, base, a, mem[a].ptr)
  }

  /** The list in memory is the list of f. */
  ghost predicate Linked(mem: map<int, Header>, f: map<int, int>, base: int) {
    BaseOk(f, base) && forall a {:trigger NodeOk(mem, f, base, a)} :: a in f ==> NodeOk(mem, f, base, a)
  }

  /** Free blocks are non-empty, in order and fully coalesced: between two there is a gap. */
  ghost predicate Coalesced(f: map<int, int>, base: int) {
    && (forall a :: a in f && a != base ==> f[a] > 0)
    && (forall a, b :: a in f && b in f && a < b ==> a + f[a] < b)
  }

  /** Live blocks are non-empty, keep their size in their header, and overlap nothing. */
  ghost predicate LiveOk(mem: map<int, Header>, f: map<int, int>, live: map<int, int>, base: int) {
    && (forall a :: a in live ==> base < a && live[a] > 0 && a in mem && mem[a].size == live[a])
    && (forall a, b :: a in live && b in live && a < b ==> a + live[a] <= b)
    && (forall a, b :: a in live && b in f ==> a + live[a] <= b || b + f[b] <= a)
  }

  predicate Inside(m: map<int, int>, u: int) {
    exists a :: a in m && a <= u < a + m[a]
  }

  /** Conservation: the units from sbrk are exactly those of the free and of the live blocks. */
  ghost predicate Conserved(f: map<int, int>, live: map<int, int>, arena: set<int>) {
    forall u :: u in arena <==> Inside(f, u) || Inside(live, u)
  }

  /** Placing block bp of n units after p, merged with the blocks it touches. */
  function Release(f: map<int, int>, bp: int, n: int, p: int, s: int): map<int, int>
    requires p in f && s in f
  {
    var f1 := if bp + n == s then (f - {s})[bp := n + f[s]] else f[bp := n];
    if p in f1 && p + f1[p] == bp then (f1 - {bp})[p := f1[p] + f1[bp]] else f1
  }

  class Allocator {
    const base: int
    const limit: int
    var mem: map<int, Header>
    var freep: int
    var brk: int
    ghost var free: map<int, int>
    ghost var live: map<int, int>
    ghost var arena: set<int>

    ghost predicate Valid()
      reads this
    {
      && 0 < base < brk && (forall u :: u in arena ==> base < u < brk)
      && (if freep == 0 then free == map[] && live == map[] && arena == {}
          else
            && freep in free && Linked(mem, free, base) && Coalesced(free, base)
            && LiveOk(mem, free, live, base) && Conserved(free, live, arena))
    }

    /** free's search: the last free block below bp, starting anywhere in the list. */
    method Find(bp: int) returns (p: int)
      requires Valid() && freep != 0 && base < bp && bp !in free
      ensures p in free && p in mem && base <= p < bp && Follows(free, base, p, mem[p].ptr)
      ensures forall k :: k in free ==> k <= p || bp < k
    {
      hide Linked, Coalesced, LiveOk, Conserved;
      p := freep;
      Node(mem, free, base, p);
      while !(bp > p && bp < mem[p].ptr)
        invariant p in free && p in mem && base <= p && Follows(free, base, p, mem[p].ptr)
        decreases p > bp, Above(free, p)
      {
        if p >= mem[p].ptr && (bp > p || bp < mem[p].ptr) { break; }
        AboveNext(free, base, p, mem[p].ptr);
        p := mem[p].ptr;
        Node(mem, free, base, p);
      }
    }

    /** The assignments at the end of free: bp goes between p and p's follower. */
    method Splice(bp: int, p: int)
      requires bp in mem && p in mem && mem[p].ptr in mem
      modifies this`mem
      ensures mem == Relink(old(mem), bp, p)
    {
      var s := mem[p].ptr;
      if bp + mem[bp].size == s {
        mem := mem[bp := mem[bp].(size := mem[bp].size + mem[s].size)];
        mem := mem[bp := mem[bp].(ptr := mem[s].ptr)];
      } else {
        mem := mem[bp := mem[bp].(ptr := s)];
      }
      if p + mem[p].size == bp {
        mem := mem[p := mem[p].(size := mem[p].size + mem[bp].size)];
        mem := mem[p := mem[p].(ptr := mem[bp].ptr)];
      } else {
        mem := mem[p := mem[p].(ptr := bp)];
      }
    }

    /** free of the live block whose header is at bp: its units become free, merged with the free
        blocks they touch, and nothing else changes hands. */
    method Free(bp: int)
      requires Valid() && bp in live
      modifies this`mem, this`freep, this`free, this`live
      ensures Valid() && freep != 0 && live == old(live) - {bp}
      ensures freep in old(free) && freep < bp && freep in old(mem) && old(mem)[freep].ptr in old(free)
      ensures free == Release(old(free), bp, old(live)[bp], freep, old(mem)[freep].ptr)
    {
      hide Linked, Coalesced, LiveOk, Conserved, Follows, Relink, Release;
      NotFree(mem, free, live, base, bp);
      var p := Find(bp);
      ReleaseAll(mem, free, live, arena, base, bp, p);
      free, live := Release(free, bp, live[bp], p, mem[p].ptr), live - {bp};
      Splice(bp, p);
      freep := p;
    }

    constructor (base: int, brk: int, limit: int)
      requires 0 < base < brk
      ensures Valid() && freep == 0 && live == map[]
    {
      this.base, this.brk, this.limit := base, brk, limit;
      mem, freep := map[], 0;
      free, live, arena := map[], map[], {};
    }

    /** sbrk: the heap grows by nu units unless that passes the limit. */
    method Sbrk(nu: int) returns (p: int)
      requires Valid() && 0 < nu
      modifies this`brk
      ensures if brk == old(brk) then p == -1 else p == old(brk) && brk == old(brk) + nu
      ensures p == -1 <==> old(brk) + nu > limit
    {
      if brk + nu > limit { return -1; }
      p := brk;
      brk := brk + nu;
    }

    /** morecore: fresh units from sbrk join the free list through free; then freep or the block
        behind it has at least nu units. */
    method Morecore(nu: int) returns (p: int)
      requires Valid() && freep != 0 && 0 < nu
      modifies this`mem, this`freep, this`brk, this`free, this`live, this`arena
      ensures Valid() && freep != 0 && live == old(live) && old(arena) <= arena
      ensures p == 0 ==> freep == old(freep) && free == old(free) && mem == old(mem) && arena == old(arena)
      ensures p == 0 <==> old(brk) + Core(nu) > limit
      ensures brk == if p == 0 then old(brk) else old(brk) + Core(nu)
      ensures p != 0 ==> p == freep && HasRoom(free, nu)
    {
      hide Linked, Coalesced, LiveOk, Conserved, Release, Range;
      var n := nu;
      if n < NALLOC { n := NALLOC; }
      ghost var f, brk0 := free, brk;
      var hp := Sbrk(n);
      if hp == -1 { return 0; }
      GrowAll(mem, free, live, arena, base, brk0, n);
      RangeIs(hp, n);
      mem := mem[hp := Header(0, n)];
      live, arena := live[hp := n], arena + Range(hp, n);
      ghost var m := mem;
      NonNegative(mem, f, base);
      Free(hp);
      assert live == old(live);
      ReleaseHolds(f, hp, n, freep, m[freep].ptr);
      return freep;
    }

    /** The branch of malloc that found a block: all of p, or the last n units of it. */
    method Carve(prevp: int, p0: int, n: int) returns (p: int)
      requires Valid() && freep != 0 && prevp in free && prevp in mem && mem[prevp].ptr == p0
      requires p0 in free && p0 in mem && 0 < n <= free[p0] == mem[p0].size
      modifies this`mem, this`freep, this`free, this`live
      ensures Valid() && freep == prevp && freep != 0
      ensures p == p0 + old(free)[p0] - n > 0 && p !in old(live) && live == old(live)[p := n]
      ensures free == Shrink(old(free), p0, n)
    {
      hide Linked, Coalesced, LiveOk, Conserved;
      p := p0;
      PositiveNode(mem, free, base, prevp);
      PositiveNode(mem, free, base, p);
      if mem[p].size == n {
        TakeWhole(mem, free, live, arena, base, prevp, p);
        mem := mem[prevp := mem[prevp].(ptr := mem[p].ptr)];
      } else {
        TakeTail(mem, free, live, arena, base, p, n, Header(if p + mem[p].size - n in mem then mem[p + mem[p].size - n].ptr else 0, n));
        mem := mem[p := mem[p].(size := mem[p].size - n)];
        p := p + mem[p].size;
        mem := mem[p := Header(if p in mem then mem[p].ptr else 0, n)];
      }
      freep := prevp;
      free, live := Shrink(free, p0, n), live[p := n];
    }

    /** malloc's first lines: the list starts with the empty base alone. */
    method Start(ghost n: int)
      requires Valid() && 0 < n
      modifies this`mem, this`freep, this`free
      ensures Valid() && freep != 0 && (HasRoom(free, n) <==> HasRoom(old(free), n))
      ensures HasRoom(old(free), n) ==> free == old(free) && freep == old(freep)
    {
      if freep == 0 {
        mem, freep := mem[base := Header(base, 0)], base;
        free := map[base := 0];
        assert NodeOk(mem, free, base, base);
      }
    }

    /** malloc, for a request whose size fits the int that sbrk takes.  The result is the address
        of the header in front of the caller's block, or 0. */
    method Malloc(nbytes: nat) returns (r: int)
      requires Valid() && nbytes <= MAXREQUEST
      modifies this`mem, this`freep, this`brk, this`free, this`live, this`arena
      ensures Valid() && old(arena) <= arena
      ensures r == 0 <==> !HasRoom(old(free), Units(nbytes)) && old(brk) + Core(Units(nbytes)) > limit
      ensures r == 0 ==> live == old(live) && arena == old(arena)
      ensures brk == if r == 0 || HasRoom(old(free), Units(nbytes)) then old(brk) else old(brk) + Core(Units(nbytes))
      ensures r != 0 ==> r !in old(live) && live == old(live)[r := Units(nbytes)] && 8 * (live[r] - 1) >= nbytes
      ensures HasRoom(old(free), Units(nbytes)) ==>
        exists p0 :: FirstFit(old(free), old(freep), p0, Units(nbytes)) && TailOf(old(free), p0, Units(nbytes), r, free)
    {
      hide Linked, Coalesced, LiveOk, Conserved, Follows, BaseOk, Units, HasRoom, FitsAhead, Core;
      var nunits := Units(nbytes);
      UnitsSuffice(nbytes);
      Start(nunits);
      ghost var brk0, f0 := brk, free;
      var prevp := freep;
      NodeAt(mem, free, base, prevp);
      var p := mem[prevp].ptr;
      ghost var grown := false;
      AllAhead(free, base, freep, p, nunits);
      while true
        invariant Valid() && freep != 0 && live == old(live) && old(arena) <= arena
        invariant p in free && prevp in free && prevp in mem && mem[prevp].ptr == p
        invariant FitsAhead(free, p, freep, nunits)
        invariant !grown ==> brk == brk0 && arena == old(arena) && free == f0
        invariant HasRoom(old(free), nunits) && !grown ==> f0 == old(free) && freep == old(freep)
        invariant grown ==> brk == brk0 + Core(nunits) <= limit && !HasRoom(f0, nunits) && HasRoom(free, nunits)
        decreases !grown, p > freep, Above(free, p)
      {
        NodeAt(mem, free, base, p);
        if mem[p].size >= nunits {
          Fitting(free, p, nunits);
          assert FirstFit(free, freep, p, nunits);
          ghost var f1 := free;
          r := Carve(prevp, p, nunits);
          assert TailOf(f1, p, nunits, r, free);
          return;
        }
        if p == freep {
          NoneFits(free, freep, nunits);
          var q := Morecore(nunits);
          if q == 0 { return 0; }
          p := q;
          grown := true;
          NodeAt(mem, free, base, p);
          AllAhead(free, base, freep, mem[p].ptr, nunits);
        } else {
          AboveNext(free, base, p, mem[p].ptr);
          AheadNext(free, base, p, freep, mem[p].ptr, nunits);
        }
        prevp := p;
        p := mem[p].ptr;
      }
    }
  }

  lemma PositiveNode(mem: map<int, Header>, f: map<int, int>, base: int, p: int)
    requires Linked(mem, f, base) && p in f
    ensures base <= p
  {
  }

  lemma NodeAt(mem: map<int, Header>, f: map<int, int>, base: int, p: int)
    requires Linked(mem, f, base) && p in f
    ensures p in mem && mem[p].size == f[p] && mem[p].ptr in f && Follows(f, base, p, mem[p].ptr) && base <= p
    ensures BaseOk(f, base)
  {
    Node(mem, f, base, p);
  }

  /** Block k is met on the way from p round to freep, both included. */
  predicate Ahead(f: map<int, int>, p: int, freep: int, k: int) {
    k in f && if p <= freep then p <= k <= freep else k >= p || k <= freep
  }

  /** Every block of n units is still ahead. */
  ghost predicate FitsAhead(f: map<int, int>, p: int, freep: int, n: int) {
    forall k :: k in f && f[k] >= n ==> Ahead(f, p, freep, k)
  }

  /** p is the first block of n units behind freep, going round. */
  ghost predicate FirstFit(f: map<int, int>, freep: int, p: int, n: int) {
    p in f && f[p] >= n && FitsAhead(f, p, freep, n)
  }

  /** r is the last n units of block p, which is left with the rest. */
  ghost predicate TailOf(f: map<int, int>, p: int, n: int, r: int, f': map<int, int>) {
    p in f && n <= f[p] && r == p + f[p] - n && f' == Shrink(f, p, n)
  }

  /** From freep's follower the way round to freep meets every block. */
  lemma AllAhead(f: map<int, int>, base: int, freep: int, s: int, n: int)
    requires BaseOk(f, base) && freep in f && Follows(f, base, freep, s)
    ensures FitsAhead(f, s, freep, n)
  {
  }

  /** One step along the way leaves only p behind, and does not pass freep. */
  lemma AheadNext(f: map<int, int>, base: int, p: int, freep: int, s: int, n: int)
    requires BaseOk(f, base) && freep in f && p in f && p != freep && Follows(f, base, p, s)
    requires FitsAhead(f, p, freep, n) && f[p] < n
    ensures FitsAhead(f, s, freep, n)
    ensures p < freep ==> p < s <= freep
    ensures p > freep ==> s > p || s <= freep
  {
  }

  lemma Fitting(f: map<int, int>, p: int, n: int)
    requires p in f && f[p] >= n
    ensures HasRoom(f, n)
  {
  }

  /** At the end of the way, no block fits. */
  lemma NoneFits(f: map<int, int>, freep: int, n: int)
    requires FitsAhead(f, freep, freep, n) && freep in f && f[freep] < n
    ensures !HasRoom(f, n)
  {
  }

  lemma RangeIs(a: int, n: int)
    ensures forall u :: u in Range(a, n) <==> a <= u < a + n
  {
  }

  lemma NonNegative(mem: map<int, Header>, f: map<int, int>, base: int)
    requires Linked(mem, f, base) && Coalesced(f, base)
    ensures BaseOk(f, base) && forall a :: a in f ==> f[a] >= 0
  {
  }

  /** Some free block has n units. */
  ghost predicate HasRoom(f: map<int, int>, n: int) {
    exists k :: k in f && f[k] >= n
  }

  /** Units morecore asks for. */
  function Core(nu: int): int { if nu < NALLOC then NALLOC else nu }

  ghost function Range(a: int, n: int): (r: set<int>)
    ensures forall u :: u in r <==> a <= u < a + n
    decreases if n < 0 then 0 else n
  {
    if n <= 0 then {} else Range(a, n - 1) + {a + n - 1}
  }

  /** Everything the allocator has lies below the break. */
  lemma AllBelow(f: map<int, int>, live: map<int, int>, arena: set<int>, base: int, hp: int)
    requires Coalesced(f, base) && BaseOk(f, base) && Conserved(f, live, arena)
    requires base < hp && forall u :: u in arena ==> u < hp
    ensures forall a :: a in f ==> a < hp && a + f[a] <= hp
    ensures forall a :: a in live && live[a] > 0 ==> a + live[a] <= hp
  {
    forall a | a in f && f[a] > 0 ensures a + f[a] <= hp {
      assert Inside(f, a + f[a] - 1);
    }
    forall a | a in live && live[a] > 0 ensures a + live[a] <= hp {
      assert Inside(live, a + live[a] - 1);
    }
  }

  lemma GrowConserves(f: map<int, int>, live: map<int, int>, arena: set<int>, hp: int, n: int)
    requires Conserved(f, live, arena) && hp !in live
    ensures Conserved(f, live[hp := n], arena + Range(hp, n))
  {
    var live' := live[hp := n];
    forall u ensures Inside(live', u) <==> Inside(live, u) || hp <= u < hp + n {
      if Inside(live, u) {
        var a :| a in live && a <= u < a + live[a];
        assert a in live' && live'[a] == live[a];
      }
      if hp <= u < hp + n { assert hp in live'; }
      if Inside(live', u) {
        var a :| a in live' && a <= u < a + live'[a];
        if a != hp { assert a in live && live[a] == live'[a]; }
      }
    }
  }

  lemma GrowLinked(mem: map<int, Header>, f: map<int, int>, base: int, hp: int, h: Header)
    requires Linked(mem, f, base) && hp !in f
    ensures Linked(mem[hp := h], f, base)
  {
    hide Follows;
    forall a | a in f ensures NodeOk(mem[hp := h], f, base, a) { Node(mem, f, base, a); }
  }

  /** A block behind everything the allocator has is apart from everything. */
  lemma GrowAll(mem: map<int, Header>, f: map<int, int>, live: map<int, int>, arena: set<int>, base: int, hp: int, n: int)
    requires Linked(mem, f, base) && Coalesced(f, base) && LiveOk(mem, f, live, base) && Conserved(f, live, arena)
    requires base < hp && 0 < n && forall u :: u in arena ==> u < hp
    ensures hp !in live && hp !in f && Linked(mem[hp := Header(0, n)], f, base)
    ensures LiveOk(mem[hp := Header(0, n)], f, live[hp := n], base)
    ensures Conserved(f, live[hp := n], arena + Range(hp, n))
  {
    AllBelow(f, live, arena, base, hp);
    hide Follows, Coalesced, Conserved, NodeOk;
    GrowLinked(mem, f, base, hp, Header(0, n));
    GrowConserves(f, live, arena, hp, n);
  }

  /** Some block of Release has all the released units. */
  lemma ReleaseHolds(f: map<int, int>, bp: int, n: int, p: int, s: int)
    requires p in f && s in f && p < bp && 0 < n && f[p] >= 0 && f[s] >= 0
    ensures exists k :: k in Release(f, bp, n, p, s) && Release(f, bp, n, p, s)[k] >= n
  {
    var f' := Release(f, bp, n, p, s);
    assert (p in f' && f'[p] >= n) || (bp in f' && f'[bp] >= n);
  }

  // ----- taking a block -----

  /** Units for a request, as malloc computes them in 32-bit arithmetic. */
  function Units(nbytes: nat): nat {
    (nbytes + 8 - 1) % UINT / 8 + 1
  }

  /** The largest request whose sbrk argument, 8 bytes a unit, is a positive int. */
  const MAXREQUEST: nat := 0x7fff_fff0

  /** The units behind the header hold the request unless the computation wraps, and the size
      passed to sbrk fits in an int exactly up to MAXREQUEST, for requests that do not wrap. */
  lemma UnitsSuffice(nbytes: nat)
    requires nbytes < UINT
    ensures Units(nbytes) > 0
    ensures 8 * (Units(nbytes) - 1) >= nbytes <==> nbytes <= UINT - 8
    ensures nbytes <= UINT - 8 ==> (8 * Units(nbytes) < 0x8000_0000 <==> nbytes <= MAXREQUEST)
  {
  }

  /** p exactly fits: it leaves the list, and prev points past it. */
  lemma TakeWhole(mem: map<int, Header>, f: map<int, int>, live: map<int, int>, arena: set<int>, base: int, prev: int, p: int)
    requires Linked(mem, f, base) && Coalesced(f, base) && LiveOk(mem, f, live, base) && Conserved(f, live, arena)
    requires prev in f && prev in mem && mem[prev].ptr == p && p in f && p in mem && f[p] > 0
    ensures var mem', f' := mem[prev := mem[prev].(ptr := mem[p].ptr)], Shrink(f, p, f[p]);
      && prev != p && p !in live && Linked(mem', f', base) && Coalesced(f', base)
      && LiveOk(mem', f', live[p := f[p]], base) && Conserved(f', live[p := f[p]], arena)
  {
    hide Linked, Conserved, LiveOk, Coalesced;
    Node(mem, f, base, p);
    TakeApart(mem, f, live, base, p, f[p]);
    WholeLinked(mem, f, base, prev, p);
    TakeConserves(f, live, arena, p, p, f[p]);
    TakeLive(mem, mem[prev := mem[prev].(ptr := mem[p].ptr)], f, live, base, p, f[p]);
  }

  /** The free blocks after n units have been cut off the end of p. */
  function Shrink(f: map<int, int>, p: int, n: int): map<int, int>
    requires p in f && n <= f[p]
  {
    if n == f[p] then f - {p} else f[p := f[p] - n]
  }

  /** The block cut off the end of p is a new one. */
  lemma TakeApart(mem: map<int, Header>, f: map<int, int>, live: map<int, int>, base: int, p: int, n: int)
    requires LiveOk(mem, f, live, base) && Coalesced(f, base) && p in f && 0 < n <= f[p]
    ensures (p + f[p] - n) !in live && (n < f[p] ==> (p + f[p] - n) !in f)
    ensures Coalesced(Shrink(f, p, n), base)
  {
  }

  /** The live blocks with the new one; only headers of free blocks and the new one may change. */
  lemma TakeLive(mem: map<int, Header>, mem': map<int, Header>, f: map<int, int>, live: map<int, int>, base: int, p: int, n: int)
    requires LiveOk(mem, f, live, base) && BaseOk(f, base) && Coalesced(f, base) && p in f && 0 < n <= f[p]
    requires var q: int := p + f[p] - n;
      && q in mem' && mem'[q].size == n
      && forall a :: a in mem && a != p && a != q ==> a in mem' && mem'[a].size == mem[a].size
    ensures LiveOk(mem', Shrink(f, p, n), live[p + f[p] - n := n], base)
  {
    TakeApart(mem, f, live, base, p, n);
    TakeFromFree(mem, f, live, base, p, n);
    TakeFromLive(mem, f, live, base, p, n);
    hide Coalesced, Shrink;
  }

  /** The shortened free blocks overlap no live block, the new one included. */
  lemma TakeFromFree(mem: map<int, Header>, f: map<int, int>, live: map<int, int>, base: int, p: int, n: int)
    requires LiveOk(mem, f, live, base) && Coalesced(f, base) && p in f && 0 < n <= f[p]
    ensures var f', live' := Shrink(f, p, n), live[p + f[p] - n := n];
      forall a, b :: a in live' && b in f' ==> a + live'[a] <= b || b + f'[b] <= a
  {
    var q: int := p + f[p] - n;
    var f', live' := Shrink(f, p, n), live[q := n];
    forall a, b | a in live' && b in f' ensures a + live'[a] <= b || b + f'[b] <= a {
      assert b in f && f'[b] <= f[b];
      if a != q { assert a in live; }
    }
  }

  /** The new block overlaps no other live block. */
  lemma TakeFromLive(mem: map<int, Header>, f: map<int, int>, live: map<int, int>, base: int, p: int, n: int)
    requires LiveOk(mem, f, live, base) && p in f && 0 < n <= f[p]
    ensures var live' := live[p + f[p] - n := n];
      forall a, b :: a in live' && b in live' && a < b ==> a + live'[a] <= b
  {
    var q: int := p + f[p] - n;
    var live' := live[q := n];
    forall a, b | a in live' && b in live' && a < b ensures a + live'[a] <= b {
      assert a != q ==> a + live[a] <= p || p + f[p] <= a;
      assert b != q ==> b + live[b] <= p || p + f[p] <= b;
    }
  }

  /** Dropping p from the list: its predecessor is followed by its follower, the rest as before. */
  lemma DropFollows(f: map<int, int>, base: int, prev: int, p: int, t: int, a: int, s: int)
    requires prev in f && p in f && p != base && BaseOk(f, base)
    requires Follows(f, base, prev, p) && Follows(f, base, p, t) && a in f && a != p && Follows(f, base, a, s)
    ensures prev != p && Follows(f - {p}, base, a, if a == prev then t else s)
  {
  }

  /** The header of a after p is unlinked from behind prev. */
  lemma WholeNode(mem: map<int, Header>, f: map<int, int>, base: int, prev: int, p: int, a: int)
    requires Linked(mem, f, base) && prev in f && prev in mem && mem[prev].ptr == p && p in f && p in mem && f[p] > 0
    requires a in f && a != p
    ensures prev != p && NodeOk(mem[prev := mem[prev].(ptr := mem[p].ptr)], f - {p}, base, a)
  {
    Node(mem, f, base, prev);
    Node(mem, f, base, p);
    Node(mem, f, base, a);
    hide Linked, Follows;
    DropFollows(f, base, prev, p, mem[p].ptr, a, mem[a].ptr);
  }

  lemma WholeLinked(mem: map<int, Header>, f: map<int, int>, base: int, prev: int, p: int)
    requires Linked(mem, f, base) && prev in f && prev in mem && mem[prev].ptr == p && p in f && p in mem && f[p] > 0
    ensures prev != p && Linked(mem[prev := mem[prev].(ptr := mem[p].ptr)], Shrink(f, p, f[p]), base)
  {
    hide NodeOk;
    var f', mem' := f - {p}, mem[prev := mem[prev].(ptr := mem[p].ptr)];
    assert p != base;
    WholeNode(mem, f, base, prev, p, base);
    forall a | a in f' ensures NodeOk(mem', f', base, a) {
      WholeNode(mem, f, base, prev, p, a);
    }
  }

  lemma TakeConserves(f: map<int, int>, live: map<int, int>, arena: set<int>, p: int, q: int, n: int)
    requires Conserved(f, live, arena) && p in f && 0 < n <= f[p] && q == p + f[p] - n && q !in live
    ensures Conserved(Shrink(f, p, n), live[q := n], arena)
  {
    var f', live' := Shrink(f, p, n), live[q := n];
    forall u: int ensures u in arena <==> Inside(f', u) || Inside(live', u) {
      if Inside(f, u) {
        var a :| a in f && a <= u < a + f[a];
        if a != p { assert a in f' && f'[a] == f[a]; }
        else if u < q { assert p in f'; } else { assert q in live'; }
      }
      if Inside(live, u) {
        var a :| a in live && a <= u < a + live[a];
        assert a in live' && live'[a] == live[a];
      }
      if Inside(f', u) {
        var a :| a in f' && a <= u < a + f'[a];
        assert a in f && f'[a] <= f[a];
      }
      if Inside(live', u) {
        var a :| a in live' && a <= u < a + live'[a];
        if a == q { assert p in f && p <= u < p + f[p]; } else { assert a in live && live[a] == live'[a]; }
      }
    }
  }

  /** p is larger: its tail becomes the new block, with a header of its own. */
  lemma TakeTail(mem: map<int, Header>, f: map<int, int>, live: map<int, int>, arena: set<int>, base: int, p: int, n: int, h: Header)
    requires Linked(mem, f, base) && Coalesced(f, base) && LiveOk(mem, f, live, base) && Conserved(f, live, arena)
    requires p in f && p in mem && 0 < n < f[p] && h.size == n
    ensures var q: int := p + f[p] - n;
      var mem' := mem[p := mem[p].(size := f[p] - n)][q := h];
      var f' := Shrink(f, p, n);
      && q !in live && q !in f && Linked(mem', f', base) && Coalesced(f', base)
      && LiveOk(mem', f', live[q := n], base) && Conserved(f', live[q := n], arena)
  {
    hide Linked, Conserved, LiveOk, Coalesced;
    var q: int := p + f[p] - n;
    Node(mem, f, base, p);
    TakeApart(mem, f, live, base, p, n);
    TailLinked(mem, f, base, p, n, h);
    TakeConserves(f, live, arena, p, q, n);
    TakeLive(mem, mem[p := mem[p].(size := f[p] - n)][q := h], f, live, base, p, n);
  }

  lemma SameKeys(f: map<int, int>, f': map<int, int>, base: int, a: int, s: int)
    requires f'.Keys == f.Keys && Follows(f, base, a, s)
    ensures Follows(f', base, a, s)
  {
    assert forall k :: k in f' <==> k in f;
  }

  lemma TailLinked(mem: map<int, Header>, f: map<int, int>, base: int, p: int, n: int, h: Header)
    requires Linked(mem, f, base) && p in f && p in mem && 0 < n < f[p] && (p + f[p] - n) !in f
    ensures Linked(mem[p := mem[p].(size := f[p] - n)][p + f[p] - n := h], Shrink(f, p, n), base)
  {
    var f', mem' := Shrink(f, p, n), mem[p := mem[p].(size := f[p] - n)][p + f[p] - n := h];
    hide Follows;
    Node(mem, f, base, p);
    assert f'.Keys == f.Keys;
    forall a | a in f' ensures NodeOk(mem', f', base, a) {
      Node(mem, f, base, a);
      SameKeys(f, f', base, a, mem[a].ptr);
    }
  }

  /** Everything free keeps, in one place. */
  lemma ReleaseAll(mem: map<int, Header>, f: map<int, int>, live: map<int, int>, arena: set<int>, base: int, bp: int, p: int)
    requires Linked(mem, f, base) && Coalesced(f, base) && LiveOk(mem, f, live, base) && Conserved(f, live, arena)
    requires bp in live && bp in mem && p in f && p < bp && forall k :: k in f ==> k <= p || bp < k
    ensures p in mem && mem[p].ptr in f && mem[p].ptr in mem
    ensures var f' := Release(f, bp, live[bp], p, mem[p].ptr);
      var mem' := Relink(mem, bp, p);
      && p in f' && Linked(mem', f', base) && Coalesced(f', base)
      && LiveOk(mem', f', live - {bp}, base) && Conserved(f', live - {bp}, arena)
  {
    NotFree(mem, f, live, base, bp);
    GapFound(mem, f, live, base, bp, p);
    hide Linked, Coalesced, LiveOk, Conserved, Follows, Relink, FitsGap;
    var n: int, s: int := live[bp], mem[p].ptr;
    ReleaseLinked(mem, f, base, bp, p);
    ReleaseLive(mem, f, live, base, bp, p);
    ReleaseConserves(f, live, arena, base, bp, p, s);
    ReleaseCoalesced(f, base, bp, n, p, s);
    ReleaseBlocks(f, base, bp, n, p, s);
  }

  lemma NotFree(mem: map<int, Header>, f: map<int, int>, live: map<int, int>, base: int, bp: int)
    requires LiveOk(mem, f, live, base) && Coalesced(f, base) && bp in live
    ensures bp !in f && base < bp && bp in mem && mem[bp].size == live[bp]
  {
  }

  lemma GapFound(mem: map<int, Header>, f: map<int, int>, live: map<int, int>, base: int, bp: int, p: int)
    requires Linked(mem, f, base) && Coalesced(f, base) && LiveOk(mem, f, live, base) && bp in live
    requires p in f && p < bp && forall k :: k in f ==> k <= p || bp < k
    ensures p in mem && mem[p].ptr in f && mem[p].ptr in mem
    ensures mem[p].size == f[p] && mem[bp].size == live[bp]
    ensures FitsGap(f, base, bp, live[bp], p, mem[p].ptr) && p !in live
  {
    Node(mem, f, base, p);
    Node(mem, f, base, mem[p].ptr);
  }

  lemma Node(mem: map<int, Header>, f: map<int, int>, base: int, p: int)
    requires Linked(mem, f, base) && p in f
    ensures BaseOk(f, base) && p in mem && mem[p].size == f[p] && Follows(f, base, p, mem[p].ptr)
  {
    assert NodeOk(mem, f, base, p);
  }

  // ----- releasing a block -----

  /** Block bp of n units lies in the gap between p and its follower s. */
  ghost predicate FitsGap(f: map<int, int>, base: int, bp: int, n: int, p: int, s: int) {
    && Coalesced(f, base) && BaseOk(f, base)
    && p in f && Follows(f, base, p, s) && n > 0
    && p < bp && p + f[p] <= bp && (s > p ==> bp + n <= s)
  }

  /** mem after the two assignments of free. */
  function Relink(mem: map<int, Header>, bp: int, p: int): map<int, Header>
    requires bp in mem && p in mem && mem[p].ptr in mem
  {
    var s := mem[p].ptr;
    var m1 := if bp + mem[bp].size == s then mem[bp := Header(mem[s].ptr, mem[bp].size + mem[s].size)]
              else mem[bp := Header(s, mem[bp].size)];
    if p + m1[p].size == bp then m1[p := Header(m1[bp].ptr, m1[p].size + m1[bp].size)]
    else m1[p := Header(bp, m1[p].size)]
  }

  /** Merging with what it touches keeps the free blocks apart. */
  lemma ReleaseCoalesced(f: map<int, int>, base: int, bp: int, n: int, p: int, s: int)
    requires FitsGap(f, base, bp, n, p, s)
    ensures Coalesced(Release(f, bp, n, p, s), base)
  {
  }

  lemma ReleaseFollows(f: map<int, int>, base: int, bp: int, n: int, p: int, s: int, a: int, t: int)
    requires FitsGap(f, base, bp, n, p, s)
    requires a in f && a != p && a in Release(f, bp, n, p, s) && Follows(f, base, a, t)
    ensures Follows(Release(f, bp, n, p, s), base, a, t)
  {
  }

  lemma ReleaseInside(f: map<int, int>, base: int, bp: int, n: int, p: int, s: int, u: int)
    requires FitsGap(f, base, bp, n, p, s)
    ensures Inside(Release(f, bp, n, p, s), u) <==> Inside(f, u) || bp <= u < bp + n
  {
    var f' := Release(f, bp, n, p, s);
    var lower, upper := p + f[p] == bp, bp + n == s;
    var b := if lower then p else bp;
    assert b in f' && b + f'[b] == if upper then s + f[s] else bp + n;
    forall a | a in f && a <= u < a + f[a] ensures Inside(f', u) {
      if a != p && a != s { assert a in f' && f'[a] == f[a]; }
      else if a == p && !lower { assert p in f' && f'[p] == f[p]; }
      else if a == s && !upper { assert s in f'; }
    }
    if Inside(f', u) {
      var a :| a in f' && a <= u < a + f'[a];
      if a != b { assert a in f && f[a] == f'[a]; }
      else if upper && s <= u { assert s in f; }
    }
  }

  /** The merged block is followed by what followed the last of its parts. */
  lemma ReleaseEnds(f: map<int, int>, base: int, bp: int, n: int, p: int, s: int, t: int)
    requires FitsGap(f, base, bp, n, p, s) && bp !in f && Follows(f, base, s, t)
    ensures var f' := Release(f, bp, n, p, s);
      var b := if p + f[p] == bp then p else bp;
      && b in f' && Follows(f', base, b, if bp + n == s then t else s)
      && (b == bp ==> p in f' && f'[p] == f[p] && Follows(f', base, p, bp))
  {
  }

  /** The blocks of Release, by cases. */
  lemma ReleaseBlocks(f: map<int, int>, base: int, bp: int, n: int, p: int, s: int)
    requires FitsGap(f, base, bp, n, p, s) && bp !in f
    ensures var f' := Release(f, bp, n, p, s);
      var end := if bp + n == s then s + f[s] else bp + n;
      && BaseOk(f', base)
      && (forall a :: a in f' && a != p && a != bp ==> a in f && f'[a] == f[a])
      && (if p + f[p] == bp then bp !in f' && f'[p] == end - p else f'[p] == f[p] && bp in f' && f'[bp] == end - bp)
  {
  }

  /** free's pointer surgery turns the list of f into the list of Release(f, ...). */
  lemma ReleaseLinked(mem: map<int, Header>, f: map<int, int>, base: int, bp: int, p: int)
    requires Linked(mem, f, base) && bp in mem && p in f && p in mem && mem[p].ptr in f && mem[p].ptr in mem
    requires bp !in f && p < bp && FitsGap(f, base, bp, mem[bp].size, p, mem[p].ptr)
    ensures Linked(Relink(mem, bp, p), Release(f, bp, mem[bp].size, p, mem[p].ptr), base)
  {
    var n: int, s: int := mem[bp].size, mem[p].ptr;
    var f', mem' := Release(f, bp, n, p, s), Relink(mem, bp, p);
    RelinkHeaders(mem, bp, p);
    hide Follows, FitsGap, Release, Relink;
    Node(mem, f, base, p);
    Node(mem, f, base, s);
    ReleaseEnds(f, base, bp, n, p, s, mem[s].ptr);
    ReleaseBlocks(f, base, bp, n, p, s);
    forall a | a in f' ensures NodeOk(mem', f', base, a) {
      if a != p && a != bp { ReleaseOther(mem, f, base, bp, n, p, s, a); }
    }
  }

  /** The headers that free rewrites. */
  lemma RelinkHeaders(mem: map<int, Header>, bp: int, p: int)
    requires bp in mem && p in mem && mem[p].ptr in mem && p < bp
    ensures var n, s, mem' := mem[bp].size, mem[p].ptr, Relink(mem, bp, p);
      var end, next := if bp + n == s then s + mem[s].size else bp + n, if bp + n == s then mem[s].ptr else s;
      && mem'.Keys == mem.Keys
      && (forall a :: a in mem && a != p && a != bp ==> mem'[a] == mem[a])
      && (if p + mem[p].size == bp then mem'[p] == Header(next, end - p)
          else mem'[p] == Header(bp, mem[p].size) && mem'[bp] == Header(next, end - bp))
  {
  }

  lemma ReleaseOther(mem: map<int, Header>, f: map<int, int>, base: int, bp: int, n: int, p: int, s: int, a: int)
    requires Linked(mem, f, base) && FitsGap(f, base, bp, n, p, s)
    requires a in f && a != p && a != bp && a in Release(f, bp, n, p, s)
    ensures a in mem && mem[a].size == f[a] && Follows(Release(f, bp, n, p, s), base, a, mem[a].ptr)
  {
    hide FitsGap, Release;
    Node(mem, f, base, a);
    ReleaseFollows(f, base, bp, n, p, s, a, mem[a].ptr);
  }

  /** The other live blocks are not disturbed. */
  lemma ReleaseLive(mem: map<int, Header>, f: map<int, int>, live: map<int, int>, base: int, bp: int, p: int)
    requires LiveOk(mem, f, live, base) && bp in live && p in f && p in mem && mem[p].ptr in f && mem[p].ptr in mem
    requires p !in live && bp !in f
    requires FitsGap(f, base, bp, mem[bp].size, p, mem[p].ptr)
    ensures LiveOk(Relink(mem, bp, p), Release(f, bp, mem[bp].size, p, mem[p].ptr), live - {bp}, base)
  {
    var n: int, s: int := mem[bp].size, mem[p].ptr;
    var f', live' := Release(f, bp, n, p, s), live - {bp};
    ReleaseBlocks(f, base, bp, n, p, s);
    hide Release, FitsGap;
    forall a, b | a in live' && b in f' ensures a + live'[a] <= b || b + f'[b] <= a {
      assert a in live && live'[a] == live[a];
      assert a + live[a] <= bp || bp + n <= a;
      if b == p || b == bp {
        assert a + live[a] <= p || p + f[p] <= a;
        assert a + live[a] <= s || s + f[s] <= a;
      }
    }
  }

  lemma ReleaseConserves(f: map<int, int>, live: map<int, int>, arena: set<int>, base: int, bp: int, p: int, s: int)
    requires Conserved(f, live, arena) && bp in live && FitsGap(f, base, bp, live[bp], p, s)
    ensures Conserved(Release(f, bp, live[bp], p, s), live - {bp}, arena)
  {
    var live' := live - {bp};
    forall u: int ensures u in arena <==> Inside(Release(f, bp, live[bp], p, s), u) || Inside(live', u) {
      ReleaseInside(f, base, bp, live[bp], p, s, u);
      if Inside(live, u) {
        var a :| a in live && a <= u < a + live[a];
        if a != bp { assert a in live' && live'[a] == live[a]; }
      }
      if Inside(live', u) {
        var a :| a in live' && a <= u < a + live'[a];
        assert a in live && live[a] == live'[a];
      }
      if bp <= u < bp + live[bp] { assert Inside(live, u); }
    }
  }

  /** The blocks still to come before the list turns back to the base. */
  ghost function Above(f: map<int, int>, p: int): set<int> {
    set k | k in f && k > p
  }

  lemma AboveNext(f: map<int, int>, base: int, p: int, s: int)
    requires Follows(f, base, p, s)
    ensures s > p ==> Above(f, s) < Above(f, p)
  {
    if s > p { assert s in Above(f, p) && s !in Above(f, s); }
  }
}
