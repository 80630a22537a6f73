/** malloc, free and morecore over headers in memory: a circular list threaded through `ptr`, entered at
    `freep`. Addresses are in units of one header; `base` is the address of the static list head. */
module Umalloc {
  import opened HeapModel
  import opened Options

  const HEADER: nat := 8           // sizeof(Header)
  const MIN_MORE: nat := 4096

  function Units(nbytes: nat): (n: nat)
    ensures (n - 1) * 8 < nbytes + 8 <= n * 8
  {
    (nbytes + HEADER - 1) / HEADER + 1
  }

  function Max(a: nat, b: nat): (r: nat)
  {
    if a < b then b else a
  }

  // ---------- The circular list ----------

  function Next(i: nat, n: nat): (r: nat)
    requires i < n
    ensures r < n
  {
    if i + 1 < n then i + 1 else 0
  }

  /** Steps from index i to index j going round a circle of n. */
  function Dist(i: nat, j: nat, n: nat): (d: nat)
    requires i < n && j < n
    ensures d < n
  {
    if i <= j then j - i else j - i + n
  }

  type Memory = map<nat, nat>

  predicate Linked(ptr: Memory, size: Memory, f: seq<Blk>, i: nat)
    requires i < |f|
  {
    && f[i].addr in size && size[f[i].addr] == f[i].size
    && f[i].addr in ptr && ptr[f[i].addr] == f[Next(i, |f|)].addr
  }

  /** Memory holds the circular list f: sizes, and a pointer from each block to the next and from the last
      to the first. */
  ghost predicate Links(ptr: Memory, size: Memory, f: seq<Blk>)
  {
    forall i :: 0 <= i < |f| ==> Linked(ptr, size, f, i)
  }

  ghost predicate Sizes(size: Memory, live: seq<Blk>)
  {
    forall i :: 0 <= i < |live| ==> live[i].addr in size && size[live[i].addr] == live[i].size
  }

  /** The memory writes of `free` after its scan stopped at p. */
  function AfterRight(ptr: Memory, size: Memory, p: nat, bp: nat): (r: (Memory, Memory))
    requires bp in size && p in ptr && ptr[p] in size && ptr[p] in ptr
  {
    var q := ptr[p];
    if bp + size[bp] == q then (ptr[bp := ptr[q]], size[bp := size[bp] + size[q]]) else (ptr[bp := q], size)
  }

  function AfterLeft(ptr: Memory, size: Memory, p: nat, bp: nat): (r: (Memory, Memory))
    requires bp in size && bp in ptr && p in size
  {
    if p + size[p] == bp then (ptr[p := ptr[bp]], size[p := size[p] + size[bp]]) else (ptr[p := bp], size)
  }

  class Allocator {
    const base: nat
    var ptr: Memory
    var size: Memory
    var freep: nat                  // 0 before the first malloc
    ghost var h: Heap
    ghost var at: nat               // the index of freep in the list

    ghost predicate Valid()
      reads this
    {
      && 0 < base && h.free != [] && h.free[0].addr == base && Inv(h)
      && (freep == 0 ==> h.free == [Blk(base, 0)] && h.live == [])
      && (freep != 0 ==> at < |h.free| && h.free[at].addr == freep && Links(ptr, size, h.free) && Sizes(size, h.live))
    }

    constructor (base: nat, brk: nat)
      requires 0 < base < brk
      ensures Valid() && h == Heap([Blk(base, 0)], [], [], brk)
    {
      this.base, ptr, size, freep, at := base, map[], map[], 0, 0;
      h := Heap([Blk(base, 0)], [], [], brk);
      StartInv(base, brk);
    }

    /** The scan of `free`: from wherever freep stands it stops at the block's place on the list. */
    method Scan(bp: nat, ghost j: nat) returns (p: nat, ghost t: nat)
      requires Valid() && freep != 0 && j < |h.live| && h.live[j].addr == bp
      ensures t < |h.free| && Fits(h.free, t, bp) && p == h.free[t].addr
    {
      hide Inv, Linked;
      t := Place(h, j);
      Ends(h, j);
      p := freep;
      ghost var k: nat := at;
      CanFollow(ptr, size, h.free, k);
      while !(bp > p && bp < ptr[p])
        invariant 0 <= k < |h.free| && p == h.free[k].addr && p in ptr
        decreases Dist(k, t, |h.free|)
      {
        ScanStep(ptr, size, h.free, k, t, bp);
        CanFollow(ptr, size, h.free, k);
        if p >= ptr[p] && (bp > p || bp < ptr[p]) {
          break;
        }
        p := ptr[p];
        k := Next(k, |h.free|);
        CanFollow(ptr, size, h.free, k);
      }
      ScanEnd(ptr, size, h.free, k, t, bp);
    }

    /** free: the block is put on the list in address order and merged with the neighbours it touches. */
    method Free(ap: nat, ghost j: nat)
      requires Valid() && freep != 0 && 0 < ap && j < |h.live| && h.live[j].addr == ap - 1
      modifies this
      ensures Valid() && freep != 0
      ensures at < |old(h.free)| && Fits(old(h.free), at, ap - 1) && h == Freed(old(h), at, j)
    {
      hide Inv, Linked, Links, Sizes, Insert, Fits;
      var bp := ap - 1;
      ghost var t;
      var p;
      p, t := Scan(bp, j);
      FreeLinks(ptr, size, h, t, j);
      ghost var w, r := Written(ptr, size, p, bp), AfterRight(ptr, size, p, bp);
      if bp + size[bp] == ptr[p] {
        size := size[bp := size[bp] + size[ptr[p]]];
        ptr := ptr[bp := ptr[ptr[p]]];
      } else {
        ptr := ptr[bp := ptr[p]];
      }
      assert (ptr, size) == r;
      if p + size[p] == bp {
        size := size[p := size[p] + size[bp]];
        ptr := ptr[p := ptr[bp]];
      } else {
        ptr := ptr[p := bp];
      }
      assert (ptr, size) == w;
      freep := p;
      at := t;
      Positive(h, t);
      FreedInv(h, t, j);
      FreedPlace(h, t, j);
      h := Freed(h, t, j);
    }

    /** morecore: `more` is what sbrk answers, an address at or above the old break or failure. */
    method MoreCore(nu: nat, more: Option<nat>) returns (ok: bool, ghost x: nat)
      requires Valid() && freep != 0 && 0 < nu && (more.Some? ==> h.brk <= more.value && base < more.value)
      modifies this
      ensures Valid() && freep != 0 && ok == more.Some? && h.live == old(h.live)
      ensures !ok ==> h == old(h)
      ensures var n := if nu < 4096 then 4096 else nu;
        ok ==> h.got == old(h.got) + [Blk(more.value, n)] && h.brk == more.value + n
      ensures ok ==> x < |h.free| && h.free[x].size >= nu
    {
      hide Inv, Linked, Links, Sizes, Insert;
      x := 0;
      if more.None? {
        ok := false;
      } else {
        var hp, n := more.value, Max(nu, MIN_MORE);
        ghost var b, h0 := Blk(hp, n), h;
        GrowLinks(ptr, size, h, b);
        GrownInv(h, b);
        size := size[hp := n];
        h := Grown(h, b);
        Free(hp + 1, |h0.live|);
        assert Without(h0.live + [b], |h0.live|) == h0.live;
        x := InsertFits(h0.free, at, b);
        ok := true;
      }
    }

    /** Cutting n units off the end of block p, or unlinking it if it has exactly n. */
    method Take(prevp: nat, p: nat, n: nat, ghost kq: nat, ghost kp: nat) returns (a: nat)
      requires Valid() && freep != 0 && 0 < n && kq < |h.free| && kp == Next(kq, |h.free|)
      requires prevp == h.free[kq].addr && p == h.free[kp].addr && n <= h.free[kp].size
      modifies this
      ensures Valid() && freep != 0 && a == TakenAt(old(h.free), kp, n) && h == Taken(old(h), kp, n)
    {
      hide Inv, Links, Linked, Sizes;
      TakeLinks(ptr, size, h, kp, n);
      Positive(h, kq);
      TakenPlace(h, kq, kp, n);
      TakenInv(h, kp, n);
      CanFollow(ptr, size, h.free, kp);
      if size[p] == n {
        ptr := ptr[prevp := ptr[p]];
        a := p;
      } else {
        size := size[p := size[p] - n];
        a := p + size[p];
        size := size[a := n];
      }
      freep := prevp;
      at := kq;
      h := Taken(h, kp, n);
    }

    /** malloc. It fails only when no free block is large enough and sbrk refuses, and it asks sbrk at most
        once, only after every free block proved too small. A block it returns is new: it is not part of
        any other live block and no longer on the free list. Without a call of sbrk it is cut off the first
        block behind freep that is large enough. */
    method Malloc(nbytes: nat, more: Option<nat>) returns (r: Option<nat>, grew: bool, ghost k: nat)
      requires Valid() && (more.Some? ==> h.brk <= more.value && base < more.value)
      modifies this
      ensures Valid() && freep != 0
      ensures grew ==> more.Some?
      ensures r.None? || grew ==> forall i :: 0 <= i < |old(h.free)| ==> old(h.free)[i].size < Units(nbytes)
      ensures r.None? ==> more.None? && h == old(h)
      ensures r.Some? ==> r.value > 0 && h.live == old(h.live) + [Blk(r.value - 1, Units(nbytes))]
      ensures h.got == old(h.got) + (if grew then [Blk(more.value, Max(Units(nbytes), 4096))] else [])
      ensures r.Some? && !grew ==>
        && FirstFit(old(h.free), if old(freep) == 0 then 0 else old(at), k, Units(nbytes))
        && h == Taken(old(h), k, Units(nbytes))
    {
      hide Inv, Links, Linked, Sizes, Taken, SmallBehind, FitAhead, FirstFit, Dist, Next, Units;
      var nunits := Units(nbytes);
      Setup();
      FullRound(h.free, at, 0, nunits);
      var prevp, p := freep, ptr[freep];
      ghost var kq: nat, x: nat := at, 0;
      ghost var kp: nat := Next(kq, |h.free|);
      grew, k := false, 0;
      while true
        invariant Valid() && freep != 0 && freep == h.free[at].addr
        invariant kq < |h.free| && kp == Next(kq, |h.free|) && prevp == h.free[kq].addr && p == h.free[kp].addr
        invariant h.live == old(h.live)
        invariant !grew ==> h == old(h) && SmallBehind(h.free, kp, at, nunits)
        invariant !grew ==> at == if old(freep) == 0 then 0 else old(at)
        invariant grew ==> more.Some? && FitAhead(h.free, kp, at, x, nunits)
        invariant grew ==> forall i :: 0 <= i < |old(h.free)| ==> old(h.free)[i].size < nunits
        invariant h.got == old(h.got) + (if grew then [Blk(more.value, Max(nunits, MIN_MORE))] else [])
        decreases if grew then 0 else 1, Dist(kp, at, |h.free|)
      {
        Here(h, ptr, size, kp, at);
        if size[p] >= nunits {
          TakenLive(h, kp, nunits);
          if !grew {
            FitsFirst(h.free, at, kp, nunits);
          }
          k := kp;
          var a := Take(prevp, p, nunits, kq, kp);
          r := Some(a + 1);
          return;
        }
        if p == freep {
          AllSmall(h.free, kp, at, x, nunits);
          var ok;
          ok, x := MoreCore(nunits, more);
          if !ok {
            r := None;
            return;
          }
          p := freep;
          kp := at;
          grew := true;
          Here(h, ptr, size, kp, at);
          FullRound(h.free, at, x, nunits);
        } else {
          Advance(h.free, kp, at, x, nunits);
        }
        prevp := p;
        kq := kp;
        p := ptr[p];
        kp := Next(kp, |h.free|);
      }
    }

    /** The first call makes the list: base, pointing to itself. */
    method Setup()
      requires Valid()
      modifies this`freep, this`ptr, this`size, this`at
      ensures Valid() && freep != 0 && freep in ptr && at < |h.free| && ptr[freep] == h.free[Next(at, |h.free|)].addr
      ensures at == if old(freep) == 0 then 0 else old(at)
    {
      if freep == 0 {
        ptr := ptr[base := base];
        freep := base;
        size := size[base := 0];
        at := 0;
        assert Linked(ptr, size, h.free, 0);
      }
      CanFollow(ptr, size, h.free, at);
    }
  }

  /** Blocks the circular scan at kp has already passed, entered at `at`, are too small. */
  predicate SmallBehind(f: seq<Blk>, kp: nat, at: nat, n: nat)
  {
    kp < |f| && at < |f| && forall y :: 0 <= y < |f| && Dist(kp, y, |f|) > Dist(kp, at, |f|) ==> f[y].size < n
  }

  /** Block k is the first one behind block `at`, going round, that has n units. */
  predicate FirstFit(f: seq<Blk>, at: nat, k: nat, n: nat)
  {
    && at < |f| && k < |f| && f[k].size >= n
    && forall y :: 0 <= y < |f| && Dist(Next(at, |f|), y, |f|) < Dist(Next(at, |f|), k, |f|) ==> f[y].size < n
  }

  lemma FitsFirst(f: seq<Blk>, at: nat, k: nat, n: nat)
    requires SmallBehind(f, k, at, n) && f[k].size >= n
    ensures FirstFit(f, at, k, n)
  {
    forall y | 0 <= y < |f| && Dist(Next(at, |f|), y, |f|) < Dist(Next(at, |f|), k, |f|)
      ensures f[y].size < n
    {
      assert Dist(k, y, |f|) > Dist(k, at, |f|);
    }
  }

  /** A large enough block lies between kp and the end of the round. */
  predicate FitAhead(f: seq<Blk>, kp: nat, at: nat, x: nat, n: nat)
  {
    kp < |f| && at < |f| && x < |f| && f[x].size >= n && Dist(kp, x, |f|) <= Dist(kp, at, |f|)
  }

  lemma AllSmall(f: seq<Blk>, kp: nat, at: nat, x: nat, n: nat)
    requires kp == at && kp < |f| && f[kp].size < n
    ensures SmallBehind(f, kp, at, n) ==> forall i :: 0 <= i < |f| ==> f[i].size < n
    ensures !FitAhead(f, kp, at, x, n)
  {
  }

  /** A round starts behind `at`. */
  lemma FullRound(f: seq<Blk>, at: nat, x: nat, n: nat)
    requires at < |f| && x < |f|
    ensures SmallBehind(f, Next(at, |f|), at, n)
    ensures f[x].size >= n ==> FitAhead(f, Next(at, |f|), at, x, n)
  {
  }

  lemma Advance(f: seq<Blk>, kp: nat, at: nat, x: nat, n: nat)
    requires kp < |f| && at < |f| && kp != at && f[kp].size < n
    ensures SmallBehind(f, kp, at, n) ==> SmallBehind(f, Next(kp, |f|), at, n)
    ensures FitAhead(f, kp, at, x, n) ==> FitAhead(f, Next(kp, |f|), at, x, n)
    ensures Dist(Next(kp, |f|), at, |f|) < Dist(kp, at, |f|)
  {
  }

  lemma Here(h: Heap, ptr: Memory, size: Memory, kp: nat, at: nat)
    requires Inv(h) && Links(ptr, size, h.free) && kp < |h.free| && at < |h.free|
    ensures h.free[kp].addr in ptr && h.free[kp].addr in size && size[h.free[kp].addr] == h.free[kp].size
    ensures ptr[h.free[kp].addr] == h.free[Next(kp, |h.free|)].addr
    ensures h.free[kp].addr == h.free[at].addr <==> kp == at
  {
    CanFollow(ptr, size, h.free, kp);
  }

  lemma TakenLive(h: Heap, k: nat, n: nat)
    requires k < |h.free| && n <= h.free[k].size
    ensures Taken(h, k, n).live == h.live + [Blk(TakenAt(h.free, k, n), n)]
    ensures Taken(h, k, n).got == h.got
  {
  }

  lemma InsertFits(f: seq<Blk>, i: nat, b: Blk) returns (x: nat)
    requires i < |f|
    ensures x < |Insert(f, i, b)| && Insert(f, i, b)[x].size >= b.size
  {
    x := if JoinsLeft(f, i, b) then i else i + 1;
  }

  lemma GrowLinks(ptr: Memory, size: Memory, h: Heap, b: Blk)
    requires Inv(h) && Links(ptr, size, h.free) && Sizes(size, h.live) && h.brk <= b.addr && h.free[0].addr < b.addr
    ensures Links(ptr, size[b.addr := b.size], h.free) && Sizes(size[b.addr := b.size], h.live + [b])
  {
    assert Absent(h.free, b.addr) by {
      forall i | 0 <= i < |h.free|
        ensures h.free[i].addr != b.addr
      {
        assert h.free[i].End() <= h.brk;
      }
    }
    LinksFrame(ptr, size, h.free, b.addr, 0, b.size);
    forall i | 0 <= i < |h.live|
      ensures h.live[i].addr != b.addr
    {
      assert h.live[i].End() <= h.brk;
    }
  }

  lemma TakenPlace(h: Heap, kq: nat, kp: nat, n: nat)
    requires Inv(h) && kq < |h.free| && kp == Next(kq, |h.free|) && 0 < n <= h.free[kp].size
    ensures kp == kq + 1
    ensures var f := Taken(h, kp, n).free; kq < |f| && f[kq] == h.free[kq] && f[0] == h.free[0]
  {
  }

  lemma Positive(h: Heap, t: nat)
    requires Inv(h) && t < |h.free| && 0 < h.free[0].addr
    ensures 0 < h.free[t].addr
  {
  }

  lemma FreedPlace(h: Heap, t: nat, j: nat)
    requires t < |h.free| && j < |h.live|
    ensures var f := Freed(h, t, j).free; t < |f| && f[t].addr == h.free[t].addr && f[0].addr == h.free[0].addr
  {
    InsertBase(h.free, t, h.live[j]);
  }

  lemma StartInv(base: nat, brk: nat)
    requires base < brk
    ensures Inv(Heap([Blk(base, 0)], [], [], brk))
  {
    TotalOne(Blk(base, 0));
    forall u
      ensures !Covers([Blk(base, 0)], u)
    {
      CoversOne(Blk(base, 0), u);
    }
  }

  /** Where the live block belongs on the list. */
  lemma Place(h: Heap, j: nat) returns (t: nat)
    requires Inv(h) && j < |h.live|
    ensures t < |h.free| && HeapModel.Fits(h.free, t, h.live[j].addr)
  {
    t := 0;
    while t + 1 < |h.free| && h.free[t + 1].addr <= h.live[j].addr
      invariant t < |h.free| && h.free[t].addr < h.live[j].addr
      decreases |h.free| - t
    {
      assert Apart(h.live[j], h.free[t + 1]);
      t := t + 1;
    }
  }

  lemma Ends(h: Heap, j: nat)
    requires Inv(h) && j < |h.live|
    ensures h.free[0].addr < h.live[j].addr && Ordered(h.free)
  {
  }

  lemma InList(ptr: Memory, size: Memory, f: seq<Blk>, k: nat)
    requires Links(ptr, size, f) && k < |f|
    ensures f[k].addr in ptr && f[k].addr in size && ptr[f[k].addr] in ptr && ptr[f[k].addr] in size
  {
    assert Linked(ptr, size, f, k) && Linked(ptr, size, f, Next(k, |f|));
  }

  /** One step of the scan: away from the block's place neither exit test holds, and the distance shrinks. */
  lemma ScanStep(ptr: Memory, size: Memory, f: seq<Blk>, k: nat, t: nat, bp: nat)
    requires Links(ptr, size, f) && Ordered(f) && k < |f| && HeapModel.Fits(f, t, bp) && f[0].addr < bp
    ensures f[k].addr in ptr && Linked(ptr, size, f, k)
    ensures var p := f[k].addr;
      (bp > p && bp < ptr[p]) || (p >= ptr[p] && (bp > p || bp < ptr[p])) <==> k == t
    ensures k != t ==> Dist(Next(k, |f|), t, |f|) < Dist(k, t, |f|)
  {
    assert Linked(ptr, size, f, k);
    assert k + 1 < |f| ==> f[k].addr < f[k + 1].addr;
    assert k < t ==> f[k].End() < f[t].addr;
    assert k > t ==> f[t + 1].addr <= f[k].addr;
    assert k + 1 < t ==> f[k + 1].End() < f[t].addr;
  }

  lemma ScanEnd(ptr: Memory, size: Memory, f: seq<Blk>, k: nat, t: nat, bp: nat)
    requires Links(ptr, size, f) && Ordered(f) && k < |f| && HeapModel.Fits(f, t, bp) && f[0].addr < bp
    requires f[k].addr in ptr
    requires var p := f[k].addr;
      (bp > p && bp < ptr[p]) || (p >= ptr[p] && (bp > p || bp < ptr[p]))
    ensures k == t
  {
    ScanStep(ptr, size, f, k, t, bp);
  }

  // ---------- Pointer surgery ----------

  predicate DistinctAddrs(f: seq<Blk>)
  {
    forall i, j :: 0 <= i < j < |f| ==> f[i].addr != f[j].addr
  }

  predicate Absent(f: seq<Blk>, a: nat)
  {
    forall i :: 0 <= i < |f| ==> f[i].addr != a
  }

  lemma LinksFrame(ptr: Memory, size: Memory, f: seq<Blk>, a: nat, x: nat, y: nat)
    requires Links(ptr, size, f) && Absent(f, a)
    ensures Links(ptr[a := x], size, f) && Links(ptr, size[a := y], f) && Links(ptr[a := x], size[a := y], f)
  {
    assert forall i :: 0 <= i < |f| ==> Linked(ptr, size, f, i) && f[i].addr != a;
  }

  lemma LinksResize(ptr: Memory, size: Memory, f: seq<Blk>, k: nat, n: nat)
    requires Links(ptr, size, f) && DistinctAddrs(f) && k < |f|
    ensures Links(ptr, size[f[k].addr := n], f[k := Blk(f[k].addr, n)])
  {
    var g, size' := f[k := Blk(f[k].addr, n)], size[f[k].addr := n];
    forall i | 0 <= i < |g|
      ensures Linked(ptr, size', g, i)
    {
      assert Linked(ptr, size, f, i);
      assert i != k ==> f[i].addr != f[k].addr;
    }
  }

  lemma LinkedRemove(ptr: Memory, size: Memory, f: seq<Blk>, k: nat, i: nat, z: nat)
    requires 0 < k < |f| && i < |f| - 1 && z == if i < k then i else i + 1
    requires Linked(ptr, size, f, z) && Linked(ptr, size, f, k)
    requires z != k - 1 ==> f[z].addr != f[k - 1].addr
    ensures Linked(ptr[f[k - 1].addr := ptr[f[k].addr]], size, Without(f, k), i)
  {
    var g := Without(f, k);
    assert g[i] == f[z];
    var n := Next(i, |g|);
    assert g[n] == if n < k then f[n] else f[n + 1];
  }

  /** Unlinking block k > 0 by making its predecessor point past it. */
  lemma LinksRemove(ptr: Memory, size: Memory, f: seq<Blk>, k: nat)
    requires Links(ptr, size, f) && DistinctAddrs(f) && 0 < k < |f|
    ensures Linked(ptr, size, f, k) && Links(ptr[f[k - 1].addr := ptr[f[k].addr]], size, Without(f, k))
    ensures DistinctAddrs(Without(f, k))
  {
    hide Linked;
    assert Linked(ptr, size, f, k);
    CanFollow(ptr, size, f, k);
    var g, ptr' := Without(f, k), ptr[f[k - 1].addr := ptr[f[k].addr]];
    forall i | 0 <= i < |g|
      ensures Linked(ptr', size, g, i)
    {
      LinkedRemove(ptr, size, f, k, i, if i < k then i else i + 1);
    }
  }

  lemma CanFollow(ptr: Memory, size: Memory, f: seq<Blk>, k: nat)
    requires k < |f| && Linked(ptr, size, f, k)
    ensures f[k].addr in ptr && f[k].addr in size && size[f[k].addr] == f[k].size
    ensures ptr[f[k].addr] == f[Next(k, |f|)].addr
  {
  }

  lemma LinkedAdd(ptr: Memory, size: Memory, f: seq<Blk>, t: nat, b: Blk, i: nat, z: nat)
    requires t < |f| && Linked(ptr, size, f, t) && b.addr in size && size[b.addr] == b.size && b.addr != f[t].addr
    requires i < |f| + 1 && z == if i <= t then i else i - 1
    requires Linked(ptr, size, f, z) && f[z].addr != b.addr && (z != t ==> f[z].addr != f[t].addr)
    ensures Linked(ptr[b.addr := ptr[f[t].addr]][f[t].addr := b.addr], size, f[..t + 1] + [b] + f[t + 1..], i)
  {
    var g := f[..t + 1] + [b] + f[t + 1..];
    assert g[i] == if i == t + 1 then b else f[z];
    var n := Next(i, |g|);
    assert g[n] == if n == t + 1 then b else if n <= t then f[n] else f[n - 1];
  }

  /** Linking block b in after block t. */
  lemma LinksAdd(ptr: Memory, size: Memory, f: seq<Blk>, t: nat, b: Blk)
    requires Links(ptr, size, f) && DistinctAddrs(f) && t < |f| && Absent(f, b.addr)
    requires b.addr in size && size[b.addr] == b.size
    ensures Linked(ptr, size, f, t)
    ensures Links(ptr[b.addr := ptr[f[t].addr]][f[t].addr := b.addr], size, f[..t + 1] + [b] + f[t + 1..])
  {
    hide Linked;
    assert Linked(ptr, size, f, t);
    CanFollow(ptr, size, f, t);
    var g, ptr' := f[..t + 1] + [b] + f[t + 1..], ptr[b.addr := ptr[f[t].addr]][f[t].addr := b.addr];
    forall i | 0 <= i < |g|
      ensures Linked(ptr', size, g, i)
    {
      LinkedAdd(ptr, size, f, t, b, i, if i <= t then i else i - 1);
    }
  }

  /** The memory that `free` leaves when its scan stopped at p. */
  function Written(ptr: Memory, size: Memory, p: nat, bp: nat): (r: (Memory, Memory))
    requires bp in size && p in ptr && p in size && ptr[p] in size && ptr[p] in ptr
  {
    var (ptr1, size1) := AfterRight(ptr, size, p, bp);
    AfterLeft(ptr1, size1, p, bp)
  }

  lemma WrittenRightLeft(ptr: Memory, size: Memory, f: seq<Blk>, t: nat, b: Blk)
    requires Links(ptr, size, f) && DistinctAddrs(f) && Absent(f, b.addr) && t < |f|
    requires b.addr in size && size[b.addr] == b.size
    requires JoinsRight(f, t, b) && JoinsLeft(f, t, b)
    ensures f[t].addr in ptr && f[t].addr in size && ptr[f[t].addr] in size && ptr[f[t].addr] in ptr
    ensures var w := Written(ptr, size, f[t].addr, b.addr); Links(w.0, w.1, Insert(f, t, b))
  {
    assert Linked(ptr, size, f, t);
    CanFollow(ptr, size, f, t);
    InList(ptr, size, f, t);
    assert Linked(ptr, size, f, t + 1);
    CanFollow(ptr, size, f, t + 1);
    hide Links, Linked;
    var p, q, bp := f[t].addr, f[t + 1].addr, b.addr;
    var ptr1 := ptr[p := ptr[q]];
    var g := Without(f, t + 1);
    LinksRemove(ptr, size, f, t + 1);
    LinksResize(ptr1, size, g, t, f[t].size + b.size + f[t + 1].size);
    var size1 := size[p := f[t].size + b.size + f[t + 1].size];
    LinksFrame(ptr1, size1, Insert(f, t, b), bp, ptr[q], b.size + f[t + 1].size);
    var w := Written(ptr, size, p, bp);
    assert w.0 == ptr1[bp := ptr[q]];
    assert w.1 == size1[bp := b.size + f[t + 1].size];
  }

  lemma WrittenRight(ptr: Memory, size: Memory, f: seq<Blk>, t: nat, b: Blk)
    requires Links(ptr, size, f) && DistinctAddrs(f) && Absent(f, b.addr) && t < |f|
    requires b.addr in size && size[b.addr] == b.size
    requires JoinsRight(f, t, b) && !JoinsLeft(f, t, b)
    ensures f[t].addr in ptr && f[t].addr in size && ptr[f[t].addr] in size && ptr[f[t].addr] in ptr
    ensures var w := Written(ptr, size, f[t].addr, b.addr); Links(w.0, w.1, Insert(f, t, b))
  {
    assert Linked(ptr, size, f, t);
    CanFollow(ptr, size, f, t);
    InList(ptr, size, f, t);
    assert Linked(ptr, size, f, t + 1);
    CanFollow(ptr, size, f, t + 1);
    hide Links, Linked;
    var p, q, bp := f[t].addr, f[t + 1].addr, b.addr;
    var ptr1 := ptr[p := ptr[q]];
    var g := Without(f, t + 1);
    var c := Blk(bp, b.size + f[t + 1].size);
    var size1 := size[bp := c.size];
    LinksRemove(ptr, size, f, t + 1);
    LinksFrame(ptr1, size, g, bp, 0, c.size);
    LinksAdd(ptr1, size1, g, t, c);
    assert g[..t + 1] + [c] + g[t + 1..] == Insert(f, t, b);
    var w := Written(ptr, size, p, bp);
    assert w.0 == ptr1[bp := ptr1[p]][p := bp];
    assert w.1 == size1;
  }

  lemma WrittenLeft(ptr: Memory, size: Memory, f: seq<Blk>, t: nat, b: Blk)
    requires Links(ptr, size, f) && DistinctAddrs(f) && Absent(f, b.addr) && t < |f|
    requires b.addr in size && size[b.addr] == b.size && b.addr + b.size > f[0].addr
    requires !JoinsRight(f, t, b)
    ensures f[t].addr in ptr && f[t].addr in size && ptr[f[t].addr] in size && ptr[f[t].addr] in ptr
    ensures var w := Written(ptr, size, f[t].addr, b.addr); Links(w.0, w.1, Insert(f, t, b))
  {
    assert Linked(ptr, size, f, t);
    CanFollow(ptr, size, f, t);
    InList(ptr, size, f, t);
    hide Links, Linked;
    var p, bp := f[t].addr, b.addr;
    var q := ptr[p];
    var w := Written(ptr, size, p, bp);
    assert AfterRight(ptr, size, p, bp) == (ptr[bp := q], size);
    if JoinsLeft(f, t, b) {
      LinksResize(ptr, size, f, t, f[t].size + b.size);
      LinksFrame(ptr, size[p := f[t].size + b.size], Insert(f, t, b), bp, q, 0);
      assert w.0 == ptr[bp := q];
    } else {
      LinksAdd(ptr, size, f, t, b);
    }
  }

  lemma WrittenSizes(ptr: Memory, size: Memory, p: nat, bp: nat, a: nat)
    requires bp in size && p in ptr && p in size && ptr[p] in size && ptr[p] in ptr
    requires a in size && a != bp && (a == p ==> p + size[p] != bp)
    ensures a in Written(ptr, size, p, bp).1 && Written(ptr, size, p, bp).1[a] == size[a]
  {
  }

  lemma Addresses(h: Heap, j: nat)
    requires Inv(h) && j < |h.live|
    ensures DistinctAddrs(h.free) && Absent(h.free, h.live[j].addr) && h.live[j].size > 0
    ensures forall x :: 0 <= x < |h.live| && x != j ==> h.live[x].addr != h.live[j].addr
    ensures forall x, i :: 0 <= x < |h.live| && 0 <= i < |h.free| ==> h.live[x].addr != h.free[i].addr
  {
    forall x, i | 0 <= x < |h.live| && 0 <= i < |h.free|
      ensures h.live[x].addr != h.free[i].addr
    {
      assert Apart(h.live[x], h.free[i]);
    }
    forall x | 0 <= x < |h.live| && x != j
      ensures h.live[x].addr != h.live[j].addr
    {
      assert x < j ==> Apart(h.live[x], h.live[j]);
      assert j < x ==> Apart(h.live[j], h.live[x]);
    }
  }

  /** After the writes of `free`, memory holds the new list and the other live blocks keep their sizes. */
  lemma FreeLinks(ptr: Memory, size: Memory, h: Heap, t: nat, j: nat)
    requires Inv(h) && j < |h.live| && HeapModel.Fits(h.free, t, h.live[j].addr)
    requires Links(ptr, size, h.free) && Sizes(size, h.live)
    ensures var p, bp := h.free[t].addr, h.live[j].addr;
      && bp in size && p in ptr && p in size && ptr[p] in size && ptr[p] in ptr
      && var w := Written(ptr, size, p, bp);
         Links(w.0, w.1, Freed(h, t, j).free) && Sizes(w.1, Freed(h, t, j).live)
  {
    hide Written, Insert;
    Addresses(h, j);
    Ends(h, j);
    hide Inv, Ordered;
    var f, b := h.free, h.live[j];
    InList(ptr, size, f, t);
    if JoinsRight(f, t, b) {
      if JoinsLeft(f, t, b) { WrittenRightLeft(ptr, size, f, t, b); } else { WrittenRight(ptr, size, f, t, b); }
    } else {
      WrittenLeft(ptr, size, f, t, b);
    }
    var live' := Without(h.live, j);
    forall x | 0 <= x < |live'|
      ensures live'[x].addr in Written(ptr, size, f[t].addr, b.addr).1
      ensures Written(ptr, size, f[t].addr, b.addr).1[live'[x].addr] == live'[x].size
    {
      var z := if x < j then x else x + 1;
      assert live'[x] == h.live[z];
      WrittenSizes(ptr, size, f[t].addr, b.addr, live'[x].addr);
    }
  }

  /** The memory that taking n units from block k leaves. */
  lemma TakeLinks(ptr: Memory, size: Memory, h: Heap, k: nat, n: nat)
    requires Inv(h) && Links(ptr, size, h.free) && Sizes(size, h.live) && k < |h.free| && 0 < n <= h.free[k].size
    ensures 0 < k && Linked(ptr, size, h.free, k) && Linked(ptr, size, h.free, k - 1)
    ensures var p, h' := h.free[k].addr, Taken(h, k, n);
      if h.free[k].size == n then
        Links(ptr[h.free[k - 1].addr := ptr[p]], size, h'.free) && Sizes(size, h'.live)
      else
        var size' := size[p := size[p] - n][TakenAt(h.free, k, n) := n];
        Links(ptr, size', h'.free) && Sizes(size', h'.live)
  {
    var f, p, a := h.free, h.free[k].addr, TakenAt(h.free, k, n);
    assert DistinctAddrs(f);
    assert Linked(ptr, size, f, k) && Linked(ptr, size, f, k - 1);
    hide Links, Linked;
    if f[k].size == n {
      LinksRemove(ptr, size, f, k);
      hide Inv;
    } else {
      SplitAbsent(h, k, n);
      hide Inv;
      CanFollow(ptr, size, f, k);
      LinksResize(ptr, size, f, k, f[k].size - n);
      LinksFrame(ptr, size[p := size[p] - n], Shrunk(f, k, n), a, 0, n);
    }
  }

  lemma SplitAbsent(h: Heap, k: nat, n: nat)
    requires Inv(h) && k < |h.free| && 0 < n < h.free[k].size
    ensures Absent(Shrunk(h.free, k, n), TakenAt(h.free, k, n))
    ensures forall i :: 0 <= i < |h.live| ==>
      h.live[i].addr != TakenAt(h.free, k, n) && h.live[i].addr != h.free[k].addr
  {
    forall i | 0 <= i < |h.live|
      ensures h.live[i].addr != TakenAt(h.free, k, n) && h.live[i].addr != h.free[k].addr
    {
      assert Apart(h.live[i], h.free[k]);
    }
  }
}
