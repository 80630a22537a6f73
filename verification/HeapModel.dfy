/** The free list of the user-level allocator as an address-ordered sequence of blocks, in units of one
    header. Block 0 is `base`, which has size 0 and lies below the heap. */
module HeapModel {
  datatype Blk = Blk(addr: nat, size: nat) {
    function End(): nat {
      addr + size
    }
  }

  predicate In(b: Blk, u: nat)
  {
    b.addr <= u < b.End()
  }

  /** Some block of the sequence contains unit u. */
  ghost predicate Covers(bs: seq<Blk>, u: nat)
  {
    exists i :: 0 <= i < |bs| && In(bs[i], u)
  }

  function Total(bs: seq<Blk>): (n: nat)
  {
    if bs == [] then 0 else Total(bs[..|bs| - 1]) + bs[|bs| - 1].size
  }

  predicate Apart(a: Blk, b: Blk)
  {
    a.End() <= b.addr || b.End() <= a.addr
  }

  /** Address order, and no two blocks touch: everything that can be coalesced has been. */
  predicate Ordered(f: seq<Blk>)
  {
    && |f| >= 1 && f[0].size == 0
    && (forall i :: 1 <= i < |f| ==> f[i].size > 0)
    && forall i, j :: 0 <= i < j < |f| ==> f[i].End() < f[j].addr
  }

  /** Units `free` on the list, `live` with the program, `got` from sbrk. */
  datatype Heap = Heap(free: seq<Blk>, live: seq<Blk>, got: seq<Blk>, brk: nat)

  /** The free list is in order, and no two blocks, free or live, overlap. */
  ghost predicate Layout(h: Heap)
  {
    && Ordered(h.free)
    && (forall i :: 0 <= i < |h.free| ==> h.free[i].End() <= h.brk)
    && (forall i :: 0 <= i < |h.live| ==>
          h.live[i].size > 0 && h.free[0].addr < h.live[i].addr && h.live[i].End() <= h.brk)
    && (forall i, j :: 0 <= i < j < |h.live| ==> Apart(h.live[i], h.live[j]))
    && (forall i, j :: 0 <= i < |h.live| && 0 <= j < |h.free| ==> Apart(h.live[i], h.free[j]))
  }

  /** Every unit obtained from sbrk is free or live, and no other is. */
  ghost predicate Accounts(h: Heap)
  {
    && (forall u :: Covers(h.got, u) <==> Covers(h.free, u) || Covers(h.live, u))
    && Total(h.free) + Total(h.live) == Total(h.got)
  }

  ghost predicate Inv(h: Heap)
  {
    Layout(h) && Accounts(h)
  }

  // ---------- Sums and coverage ----------

  lemma {:induction false} TotalConcat(a: seq<Blk>, b: seq<Blk>)
    ensures Total(a + b) == Total(a) + Total(b)
  {
    if b == [] {
      assert a + b == a;
    } else {
      var n := |b| - 1;
      TotalConcat(a, b[..n]);
      assert (a + b)[..|a + b| - 1] == a + b[..n];
    }
  }

  lemma TotalOne(b: Blk)
    ensures Total([b]) == b.size
  {
    assert [b][..0] == [];
  }

  lemma CoversConcat(a: seq<Blk>, b: seq<Blk>, u: nat)
    ensures Covers(a + b, u) <==> Covers(a, u) || Covers(b, u)
  {
    if Covers(a, u) {
      var i :| 0 <= i < |a| && In(a[i], u);
      assert In((a + b)[i], u);
    }
    if Covers(b, u) {
      var i :| 0 <= i < |b| && In(b[i], u);
      assert In((a + b)[|a| + i], u);
    }
  }

  lemma CoversOne(b: Blk, u: nat)
    ensures Covers([b], u) <==> In(b, u)
  {
    assert In(b, u) ==> In([b][0], u);
  }

  function Without(bs: seq<Blk>, j: nat): (r: seq<Blk>)
    requires j < |bs|
  {
    bs[..j] + bs[j + 1..]
  }

  lemma WithoutSplit(bs: seq<Blk>, j: nat)
    requires j < |bs|
    ensures Total(bs) == Total(Without(bs, j)) + bs[j].size
    ensures forall u :: Covers(bs, u) <==> Covers(Without(bs, j), u) || In(bs[j], u)
  {
    hide Covers, Total, In;
    var x, m, y := bs[..j], [bs[j]], bs[j + 1..];
    assert bs == x + m + y;
    TotalConcat(x + m, y);
    TotalConcat(x, m);
    TotalConcat(x, y);
    TotalOne(bs[j]);
    forall u
      ensures Covers(bs, u) <==> Covers(Without(bs, j), u) || In(bs[j], u)
    {
      CoversConcat(x + m, y, u);
      CoversConcat(x, m, u);
      CoversConcat(x, y, u);
      CoversOne(bs[j], u);
    }
  }

  lemma UpdateUnits(bs: seq<Blk>, k: nat, b: Blk)
    requires k < |bs|
    ensures Total(bs[k := b]) + bs[k].size == Total(bs) + b.size
    ensures forall u :: Covers(bs[k := b], u) <==> Covers(Without(bs, k), u) || In(b, u)
  {
    hide Covers, Total, In;
    WithoutSplit(bs, k);
    WithoutSplit(bs[k := b], k);
    assert Without(bs[k := b], k) == Without(bs, k);
  }

  // ---------- free ----------

  /** i is the position after which a block at `addr` belongs. */
  predicate Fits(f: seq<Blk>, i: nat, addr: nat)
  {
    i < |f| && f[i].addr < addr && (i + 1 < |f| ==> addr < f[i + 1].addr)
  }

  predicate JoinsRight(f: seq<Blk>, i: nat, b: Blk)
  {
    i + 1 < |f| && b.End() == f[i + 1].addr
  }

  predicate JoinsLeft(f: seq<Blk>, i: nat, b: Blk)
    requires i < |f|
  {
    f[i].End() == b.addr
  }

  /** The list after freeing b: b is merged with the neighbours it touches. */
  function Insert(f: seq<Blk>, i: nat, b: Blk): (r: seq<Blk>)
    requires i < |f|
  {
    if JoinsRight(f, i, b) then
      if JoinsLeft(f, i, b) then
        Without(f, i + 1)[i := Blk(f[i].addr, f[i].size + b.size + f[i + 1].size)]
      else
        f[i + 1 := Blk(b.addr, b.size + f[i + 1].size)]
    else
      if JoinsLeft(f, i, b) then
        f[i := Blk(f[i].addr, f[i].size + b.size)]
      else
        f[..i + 1] + [b] + f[i + 1..]
  }

  lemma AddUnits(f: seq<Blk>, i: nat, b: Blk)
    requires i <= |f|
    ensures Total(f[..i] + [b] + f[i..]) == Total(f) + b.size
    ensures forall u :: Covers(f[..i] + [b] + f[i..], u) <==> Covers(f, u) || In(b, u)
  {
    hide Covers, Total, In;
    var g := f[..i] + [b] + f[i..];
    WithoutSplit(g, i);
    assert Without(g, i) == f;
  }

  /** Freeing a block adds exactly its units to the list. */
  lemma InsertUnits(f: seq<Blk>, i: nat, b: Blk)
    requires i < |f|
    ensures Total(Insert(f, i, b)) == Total(f) + b.size
    ensures forall u :: Covers(Insert(f, i, b), u) <==> Covers(f, u) || In(b, u)
  {
    hide Covers, Total;
    if JoinsRight(f, i, b) {
      if JoinsLeft(f, i, b) {
        InsertBoth(f, i, b);
      } else {
        WithoutSplit(f, i + 1);
        var c := Blk(b.addr, b.size + f[i + 1].size);
        UpdateUnits(f, i + 1, c);
        assert forall u :: In(c, u) <==> In(b, u) || In(f[i + 1], u);
      }
    } else if JoinsLeft(f, i, b) {
      WithoutSplit(f, i);
      var c := Blk(f[i].addr, f[i].size + b.size);
      UpdateUnits(f, i, c);
      assert forall u :: In(c, u) <==> In(f[i], u) || In(b, u);
    } else {
      AddUnits(f, i + 1, b);
    }
  }

  lemma InsertBoth(f: seq<Blk>, i: nat, b: Blk)
    requires i < |f| && JoinsRight(f, i, b) && JoinsLeft(f, i, b)
    ensures Total(Insert(f, i, b)) == Total(f) + b.size
    ensures forall u :: Covers(Insert(f, i, b), u) <==> Covers(f, u) || In(b, u)
  {
    hide Covers, Total;
    var c := Blk(f[i].addr, f[i].size + b.size + f[i + 1].size);
    var g := Without(f, i + 1);
    WithoutSplit(f, i + 1);
    WithoutSplit(g, i);
    UpdateUnits(g, i, c);
    assert g[i] == f[i];
    assert forall u :: In(c, u) <==> In(f[i], u) || In(b, u) || In(f[i + 1], u);
  }

  lemma OrderedWithout(f: seq<Blk>, k: nat)
    requires Ordered(f) && 0 < k < |f|
    ensures Ordered(Without(f, k))
  {
  }

  lemma OrderedUpdate(f: seq<Blk>, k: nat, b: Blk)
    requires Ordered(f) && 0 < k < |f| && b.size > 0 && f[k - 1].End() < b.addr
    requires k + 1 < |f| ==> b.End() < f[k + 1].addr
    ensures Ordered(f[k := b])
  {
    var g := f[k := b];
    forall x, y | 0 <= x < y < |g|
      ensures g[x].End() < g[y].addr
    {
      assert x < k - 1 ==> f[x].End() < f[k - 1].addr;
      assert k + 1 < y ==> f[k + 1].End() < f[y].addr;
    }
  }

  lemma OrderedAdd(f: seq<Blk>, i: nat, b: Blk)
    requires Ordered(f) && i < |f| && b.size > 0 && f[i].End() < b.addr
    requires i + 1 < |f| ==> b.End() < f[i + 1].addr
    ensures Ordered(f[..i + 1] + [b] + f[i + 1..])
  {
    var g := f[..i + 1] + [b] + f[i + 1..];
    forall x, y | 0 <= x < y < |g|
      ensures g[x].End() < g[y].addr
    {
      assert x < i ==> f[x].End() < f[i].addr;
      assert i + 2 < y ==> f[i + 1].End() < f[y - 1].addr;
    }
  }

  lemma OrderedJoin(f: seq<Blk>, i: nat, b: Blk)
    requires Ordered(f) && 0 < i && i + 1 < |f| && f[i].addr == b.addr && b.End() == f[i + 1].End()
    ensures Ordered(Without(f, i + 1)[i := b])
  {
    var g := Without(f, i + 1);
    OrderedWithout(f, i + 1);
    assert g[i - 1] == f[i - 1] && g[i] == f[i];
    assert f[i - 1].End() < f[i].addr;
    if i + 1 < |g| {
      assert g[i + 1] == f[i + 2] && f[i + 1].End() < f[i + 2].addr;
    }
    assert f[i].End() < f[i + 1].addr;
    OrderedUpdate(g, i, b);
  }

  lemma Neighbours(f: seq<Blk>, i: nat, b: Blk)
    requires Ordered(f) && Fits(f, i, b.addr) && b.size > 0 && Apart(b, f[i]) && (i + 1 < |f| ==> Apart(b, f[i + 1]))
    ensures f[i].End() <= b.addr && (i + 1 < |f| ==> b.End() <= f[i + 1].addr)
    ensures JoinsLeft(f, i, b) ==> 0 < i
    ensures 0 < i ==> f[i - 1].End() < f[i].addr
    ensures i + 2 < |f| ==> f[i + 1].End() < f[i + 2].addr
  {
  }

  /** The list stays in address order and fully coalesced. */
  lemma InsertOrdered(f: seq<Blk>, i: nat, b: Blk)
    requires Ordered(f) && Fits(f, i, b.addr) && b.size > 0
    requires forall j :: 0 <= j < |f| ==> Apart(b, f[j])
    ensures Ordered(Insert(f, i, b))
  {
    hide Ordered, Apart, Without;
    Neighbours(f, i, b);
    if JoinsRight(f, i, b) {
      if JoinsLeft(f, i, b) {
        OrderedJoin(f, i, Blk(f[i].addr, f[i].size + b.size + f[i + 1].size));
      } else {
        OrderedUpdate(f, i + 1, Blk(b.addr, b.size + f[i + 1].size));
      }
    } else if JoinsLeft(f, i, b) {
      OrderedUpdate(f, i, Blk(f[i].addr, f[i].size + b.size));
    } else {
      OrderedAdd(f, i, b);
    }
  }

  /** Every block of the new list is an old one or made of b and its neighbours. */
  lemma InsertApart(f: seq<Blk>, i: nat, b: Blk, c: Blk, j: nat)
    requires i < |f| && Apart(c, b) && c.size > 0 && b.size > 0 && j < |Insert(f, i, b)|
    requires forall j :: 0 <= j < |f| ==> Apart(c, f[j])
    ensures Apart(c, Insert(f, i, b)[j])
  {
    assert Apart(c, f[i]);
    assert i + 1 < |f| ==> Apart(c, f[i + 1]);
  }

  /** free: one live block goes to the list. */
  function Freed(h: Heap, i: nat, j: nat): (h': Heap)
    requires i < |h.free| && j < |h.live|
  {
    h.(free := Insert(h.free, i, h.live[j]), live := Without(h.live, j))
  }

  lemma FreedAccounts(h: Heap, i: nat, j: nat)
    requires Accounts(h) && j < |h.live| && i < |h.free|
    ensures Accounts(Freed(h, i, j))
  {
    hide Covers, Total, In, Insert;
    InsertUnits(h.free, i, h.live[j]);
    WithoutSplit(h.live, j);
  }

  lemma FreedLayout(h: Heap, i: nat, j: nat)
    requires Layout(h) && j < |h.live| && Fits(h.free, i, h.live[j].addr)
    ensures Layout(Freed(h, i, j))
  {
    var b := h.live[j];
    var h' := Freed(h, i, j);
    InsertOrdered(h.free, i, b);
    InsertEnds(h.free, i, b, h.brk);
    InsertBase(h.free, i, b);
    hide Insert, Ordered;
    forall x | 0 <= x < |h'.live|
      ensures Apart(h'.live[x], b)
      ensures forall y :: 0 <= y < |h'.free| ==> Apart(h'.live[x], h'.free[y])
    {
      var z := if x < j then x else x + 1;
      assert h'.live[x] == h.live[z];
      assert if z < j then Apart(h.live[z], b) else Apart(b, h.live[z]);
      forall y | 0 <= y < |h'.free|
        ensures Apart(h'.live[x], h'.free[y])
      {
        InsertApart(h.free, i, b, h'.live[x], y);
      }
    }
  }

  lemma InsertBase(f: seq<Blk>, i: nat, b: Blk)
    requires i < |f|
    ensures Insert(f, i, b) != [] && Insert(f, i, b)[0].addr == f[0].addr
  {
  }

  lemma InsertEnds(f: seq<Blk>, i: nat, b: Blk, top: nat)
    requires i < |f| && b.End() <= top && forall j :: 0 <= j < |f| ==> f[j].End() <= top
    ensures forall j :: 0 <= j < |Insert(f, i, b)| ==> Insert(f, i, b)[j].End() <= top
  {
  }

  lemma FreedInv(h: Heap, i: nat, j: nat)
    requires Inv(h) && j < |h.live| && Fits(h.free, i, h.live[j].addr)
    ensures Inv(Freed(h, i, j))
  {
    FreedAccounts(h, i, j);
    FreedLayout(h, i, j);
  }

  // ---------- sbrk ----------

  /** A region from sbrk, first counted as live. */
  function Grown(h: Heap, b: Blk): (h': Heap)
  {
    h.(live := h.live + [b], got := h.got + [b], brk := b.End())
  }

  lemma GrownAccounts(h: Heap, b: Blk)
    requires Accounts(h)
    ensures Accounts(Grown(h, b))
  {
    hide Covers, Total;
    TotalConcat(h.live, [b]);
    TotalConcat(h.got, [b]);
    forall u
      ensures Covers(h.got + [b], u) <==> Covers(h.free, u) || Covers(h.live + [b], u)
    {
      CoversConcat(h.live, [b], u);
      CoversConcat(h.got, [b], u);
    }
  }

  lemma GrownInv(h: Heap, b: Blk)
    requires Inv(h) && h.brk <= b.addr && h.free[0].addr < b.addr && b.size > 0
    ensures Inv(Grown(h, b))
  {
    GrownAccounts(h, b);
    hide Accounts;
  }

  // ---------- malloc ----------

  /** The address malloc takes n units at: the tail of free block k. */
  function TakenAt(f: seq<Blk>, k: nat, n: nat): (a: nat)
    requires k < |f| && n <= f[k].size
  {
    f[k].addr + f[k].size - n
  }

  function Shrunk(f: seq<Blk>, k: nat, n: nat): (r: seq<Blk>)
    requires k < |f| && n <= f[k].size
  {
    if f[k].size == n then Without(f, k) else f[k := Blk(f[k].addr, f[k].size - n)]
  }

  function Taken(h: Heap, k: nat, n: nat): (h': Heap)
    requires k < |h.free| && n <= h.free[k].size
  {
    h.(free := Shrunk(h.free, k, n), live := h.live + [Blk(TakenAt(h.free, k, n), n)])
  }

  lemma ShrunkUnits(f: seq<Blk>, k: nat, n: nat)
    requires k < |f| && 0 < n <= f[k].size
    ensures Total(Shrunk(f, k, n)) + n == Total(f)
    ensures forall u :: Covers(f, u) <==> Covers(Shrunk(f, k, n), u) || In(Blk(TakenAt(f, k, n), n), u)
  {
    hide Covers, Total;
    WithoutSplit(f, k);
    if f[k].size != n {
      var c := Blk(f[k].addr, f[k].size - n);
      UpdateUnits(f, k, c);
      assert forall u :: In(f[k], u) <==> In(c, u) || In(Blk(TakenAt(f, k, n), n), u);
    }
  }

  lemma TakenAccounts(h: Heap, k: nat, n: nat)
    requires Accounts(h) && k < |h.free| && 0 < n <= h.free[k].size
    ensures Accounts(Taken(h, k, n))
  {
    hide Covers, Total, In;
    var b := Blk(TakenAt(h.free, k, n), n);
    ShrunkUnits(h.free, k, n);
    TotalConcat(h.live, [b]);
    TotalOne(b);
    forall u
      ensures Covers(Taken(h, k, n).live, u) <==> Covers(h.live, u) || In(b, u)
    {
      CoversConcat(h.live, [b], u);
      CoversOne(b, u);
    }
  }

  lemma ShrunkLayout(f: seq<Blk>, k: nat, n: nat)
    requires Ordered(f) && k < |f| && 0 < n <= f[k].size
    ensures Ordered(Shrunk(f, k, n)) && Shrunk(f, k, n)[0] == f[0]
    ensures forall j :: 0 <= j < |Shrunk(f, k, n)| ==> Apart(Blk(TakenAt(f, k, n), n), Shrunk(f, k, n)[j])
  {
    if f[k].size == n {
      OrderedWithout(f, k);
    } else {
      OrderedUpdate(f, k, Blk(f[k].addr, f[k].size - n));
    }
  }

  /** Every block left on the list lies within a block that was there. */
  lemma ShrunkWithin(f: seq<Blk>, k: nat, n: nat, j: nat) returns (i: nat)
    requires k < |f| && 0 < n <= f[k].size && j < |Shrunk(f, k, n)|
    ensures i < |f| && f[i].addr == Shrunk(f, k, n)[j].addr && Shrunk(f, k, n)[j].End() <= f[i].End()
  {
    i := if f[k].size == n && j >= k then j + 1 else j;
  }

  /** A block handed out overlaps no live block, and nothing on the list overlaps it. */
  lemma TakenLayout(h: Heap, k: nat, n: nat)
    requires Layout(h) && k < |h.free| && 0 < n <= h.free[k].size
    ensures Layout(Taken(h, k, n))
  {
    var b := Blk(TakenAt(h.free, k, n), n);
    var h' := Taken(h, k, n);
    ShrunkLayout(h.free, k, n);
    assert h.free[0].addr < b.addr && b.End() <= h.brk;
    hide Ordered;
    forall j | 0 <= j < |h'.free|
      ensures h'.free[j].End() <= h.brk
      ensures forall x :: 0 <= x < |h.live| ==> Apart(h.live[x], h'.free[j])
    {
      var i := ShrunkWithin(h.free, k, n, j);
    }
    assert forall x :: 0 <= x < |h.live| ==> Apart(h.live[x], h.free[k]);
  }

  lemma TakenInv(h: Heap, k: nat, n: nat)
    requires Inv(h) && k < |h.free| && 0 < n <= h.free[k].size
    ensures Inv(Taken(h, k, n))
  {
    TakenAccounts(h, k, n);
    TakenLayout(h, k, n);
  }
}
