/** kalloc/kfree, walkpgdir, mappages, allocuvm, deallocuvm and freevm on one address space. */
module Vm {
  import opened PageModel
  import opened Options

  const PGSIZE: nat := 4096
  const TABLE_SPAN: nat := 0x40_0000     // bytes covered by one page table: 1 << PDXSHIFT
  const KERNBASE: nat := 0x8000_0000

  const PTE_P: nat := 1
  const PTE_W: nat := 2
  const PTE_U: nat := 4

  /** What allocuvm comes to: a size, zero for failure, or the "remap" panic. */
  datatype Grown = Size(sz: nat) | Failed | Remap

  function RoundUp(sz: nat): (r: nat)
    ensures r % PGSIZE == 0 && sz <= r < sz + PGSIZE
  {
    (sz + PGSIZE - 1) / PGSIZE * PGSIZE
  }

  /** The number of pages that sz bytes reach into. */
  function Pages(sz: nat): (n: nat)
  {
    (sz + PGSIZE - 1) / PGSIZE
  }

  /** The roles once the user pages from `first` up to `last` are given back. */
  function Released(role: Roles, first: nat, last: nat): (r: Roles)
  {
    map f | f in role :: if role[f].User? && first <= role[f].page < last then Free else role[f]
  }

  /** The directory entries that have a table. */
  function Dirs(pgdir: seq<Pte>): (r: set<nat>)
  {
    set d: nat | d < |pgdir| && pgdir[d].Present?
  }

  /** Entry d got a table: present, writable and for the user. */
  predicate DirGrew(pgdir: seq<Pte>, pgdir': seq<Pte>, d: nat, f: nat)
  {
    d < |pgdir| && pgdir' == pgdir[d := Present(f, 7)]
  }

  lemma WithDir(pgdir: seq<Pte>, pgdir': seq<Pte>, d: nat, f: nat)
    ensures DirGrew(pgdir, pgdir', d, f) ==> Dirs(pgdir') == Dirs(pgdir) + {d}
    ensures d in Dirs(pgdir) ==> Dirs(pgdir) == Dirs(pgdir) + {d}
  {
  }

  lemma NoDirNoPage(s: State, page: nat)
    ensures page / ENTRIES !in Dirs(s.pgdir) ==> Lookup(s, page).Absent?
  {
  }

  /** The directory entries that the pages from `first` up to `last` fall under. */
  function Span(first: nat, last: nat): (r: set<nat>)
  {
    set p: nat | first <= p < last :: p / ENTRIES
  }

  /** The frames it takes to map the pages from `first` up to `last`: one for each, and the missing tables. */
  function Need(pgdir: seq<Pte>, first: nat, last: nat): (n: nat)
    requires first <= last
  {
    last - first + |Span(first, last) - Dirs(pgdir)|
  }

  lemma NeedNext(pgdir: seq<Pte>, first: nat, page: nat)
    requires first <= page
    ensures Span(first, page + 1) == Span(first, page) + {page / ENTRIES}
    ensures Need(pgdir, first, page + 1) == Need(pgdir, first, page) + 1 +
      if page / ENTRIES in Dirs(pgdir) + Span(first, page) then 0 else 1
  {
    var d := page / ENTRIES;
    var a, b := Span(first, page), Span(first, page + 1);
    assert b == a + {d};
    hide Dirs, Span;
    if d in Dirs(pgdir) + a {
      assert b - Dirs(pgdir) == a - Dirs(pgdir);
    } else {
      assert b - Dirs(pgdir) == (a - Dirs(pgdir)) + {d};
    }
  }

  lemma {:induction false} NeedGrows(pgdir: seq<Pte>, first: nat, p: nat, q: nat)
    requires first <= p <= q
    ensures Need(pgdir, first, q) >= Need(pgdir, first, p) + (q - p)
    decreases q
  {
    hide Dirs, Span, Need;
    if p < q {
      NeedGrows(pgdir, first, p, q - 1);
      NeedNext(pgdir, first, q - 1);
    }
  }

  /** Among the pages from `first` up to `last` one is mapped already, and n frames reach up to it. */
  ghost predicate Blocked(s: State, n: nat, first: nat, last: nat)
  {
    exists p: nat :: first <= p < last && Lookup(s, p).Present? && Vacant(s, first, p) && Need(s.pgdir, first, p) < n
  }

  /** From s, with n free frames, the pages from `first` up to `page` were mapped. */
  ghost predicate Counted(s: State, n: nat, s': State, first: nat, page: nat)
    requires first <= page
  {
    && Dirs(s'.pgdir) == Dirs(s.pgdir) + Span(first, page)
    && |s'.free| + Need(s.pgdir, first, page) == n
  }

  lemma CountStart(s: State, first: nat)
    ensures Counted(s, |s.free|, s, first, first)
  {
    assert Span(first, first) == {};
  }

  lemma CountNext(s0: State, n: nat, s1: State, s2: State, first: nat, page: nat)
    requires first <= page && Counted(s0, n, s1, first, page) && Dirs(s2.pgdir) == Dirs(s1.pgdir) + {page / ENTRIES}
    requires |s2.free| == |s1.free| - 1 - if page / ENTRIES in Dirs(s1.pgdir) then 0 else 1
    ensures Counted(s0, n, s2, first, page + 1)
  {
    NeedNext(s0.pgdir, first, page);
    hide Dirs, Span, Need;
  }

  /** No frame for the next page, or none for its table. */
  lemma OutOfFrames(s0: State, n: nat, s1: State, first: nat, page: nat, last: nat)
    requires first <= page < last && Filled(s0, s1, first, page) && Counted(s0, n, s1, first, page) && last <= USER
    requires |s1.free| <= 1 && (|s1.free| == 1 ==> page / ENTRIES !in Dirs(s1.pgdir))
    ensures n < Need(s0.pgdir, first, last) && !Blocked(s0, n, first, last)
  {
    hide Dirs, Span, Need, Lookup;
    NeedNext(s0.pgdir, first, page);
    NeedGrows(s0.pgdir, first, page + 1, last);
    NoDirNoPage(s1, page);
    forall p: nat | first <= p < last && Lookup(s0, p).Present?
      ensures Need(s0.pgdir, first, p) >= n
    {
      NotBefore(s0, s1, first, page, p);
      if p > page {
        NeedGrows(s0.pgdir, first, page + 1, p);
      }
    }
  }

  lemma NotBefore(s0: State, s1: State, first: nat, page: nat, p: nat)
    requires first <= page < USER && Filled(s0, s1, first, page) && first <= p && Lookup(s0, p).Present?
    ensures page <= p && (Lookup(s1, page).Absent? ==> page < p)
  {
    hide Lookup;
  }

  lemma EnoughFrames(s0: State, n: nat, s1: State, first: nat, last: nat)
    requires first <= last <= USER && Filled(s0, s1, first, last) && Counted(s0, n, s1, first, last)
    ensures Vacant(s0, first, last) && Need(s0.pgdir, first, last) <= n && !Blocked(s0, n, first, last)
  {
    hide Dirs, Span, Need, Lookup;
  }

  lemma Blocks(s0: State, n: nat, s1: State, first: nat, page: nat, last: nat)
    requires first <= page < last && Filled(s0, s1, first, page) && Counted(s0, n, s1, first, page) && last <= USER
    requires Lookup(s0, page).Present? && s1.free != []
    ensures Blocked(s0, n, first, last) && !Vacant(s0, first, last)
  {
    hide Dirs, Span, Need, Lookup;
    assert Vacant(s0, first, page);
  }

  /** The pages from `first` up to `last` are unmapped, the others as before. */
  ghost predicate Cleared(s: State, s': State, first: nat, last: nat)
  {
    forall p: nat :: p < USER ==> Lookup(s', p) == if first <= p < last then Absent else Lookup(s, p)
  }

  /** Frames only moved from free to page table, or to a page in the range. */
  ghost predicate Consumed(role: Roles, role': Roles, first: nat, last: nat)
  {
    && role'.Keys == role.Keys
    && forall f :: f in role ==>
         || role'[f] == role[f]
         || (role[f] == Free && (role'[f].Table? || (role'[f].User? && first <= role'[f].page < last)))
  }

  /** The mapping without the pages from `first` up to `last`. */
  ghost function Dropped(m: map<nat, Pte>, first: nat, last: nat): (r: map<nat, Pte>)
  {
    m - (set p | p in m && first <= p < last)
  }

  /** The mapping m, with the pages from `first` up to `last` added on frames that were free, present, writable and for
      the user. */
  ghost predicate Extended(m: map<nat, Pte>, m': map<nat, Pte>, role: Roles, first: nat, last: nat)
  {
    && (forall p: nat :: p in m' <==> p in m || first <= p < last)
    && (forall p :: p in m ==> !(first <= p < last) && m'[p] == m[p])
    && forall p: nat :: first <= p < last ==>
         m'[p].Present? && m'[p].flags == 7 && m'[p].frame in role && role[m'[p].frame] == Free
  }

  lemma ClearedMap(s: State, s': State, first: nat, last: nat)
    requires Cleared(s, s', first, last)
    ensures Mapping(s') == Dropped(Mapping(s), first, last)
  {
    hide Lookup;
  }

  lemma FilledMap(s: State, s': State, role: Roles, role': Roles, first: nat, last: nat)
    requires Inv(s, role) && Inv(s', role') && Filled(s, s', first, last) && Consumed(role, role', first, last)
    requires last <= USER
    ensures Extended(Mapping(s), Mapping(s'), role, first, last)
  {
    hide Lookup, HasTable;
    forall p: nat | first <= p < last
      ensures Lookup(s', p).frame in role && role[Lookup(s', p).frame] == Free
    {
      var f := Lookup(s', p).frame;
      assert role'[f] == User(p);
      assert role[f] == User(p) ==> Lookup(s, p).Present?;
    }
  }

  class AddressSpace {
    var free: seq<nat>
    var pgdir: seq<Pte>
    var tables: map<nat, seq<Pte>>
    ghost var role: Roles

    ghost function St(): (s: State)
      reads this
    {
      State(free, pgdir, tables)
    }

    ghost predicate Valid()
      reads this
    {
      Inv(St(), role)
    }

    /** An address space without pages: the directory page and the free list. */
    constructor (dir: nat, frames: seq<nat>)
      requires dir !in frames && forall j, k :: 0 <= j < k < |frames| ==> frames[j] != frames[k]
      ensures Valid() && free == frames && Mapping(St()) == map[] && dir in role && role[dir] == Dir
    {
      free, pgdir, tables := frames, seq(ENTRIES, _ => Absent), map[];
      role := (map f | f in frames :: Free)[dir := Dir];
    }

    /** Page 0 on frame 2, with frame 1 as its table, frame 0 as the directory, and nothing free. */
    constructor OnePage()
      ensures Valid() && free == [] && 0 in Mapping(St()) && role == map[0 := Dir, 1 := Table(0), 2 := User(0)]
    {
      free, pgdir := [], seq(ENTRIES, (d: nat) => if d == 0 then Present(1, PTE_P) else Absent);
      tables := map[1 := seq(ENTRIES, (e: nat) => if e == 0 then Present(2, PTE_P) else Absent)];
      role := map[0 := Dir, 1 := Table(0), 2 := User(0)];
      new;
      OnePageOk(St(), role);
    }

    /** kalloc: pop the free list; None when it is empty. */
    method Kalloc() returns (r: Option<nat>)
      requires Valid()
      modifies this`free, this`role
      ensures Valid() && SamePages(old(St()), St())
      ensures r.None? <==> old(free) == []
      ensures r.None? ==> free == old(free) && role == old(role)
      ensures r.Some? ==>
        && r.value == old(free)[0] && free == old(free)[1..] && r.value in old(role) && old(role)[r.value] == Free
        && role == old(role)[r.value := Held]
    {
      hide Inv;
      if free == [] {
        r := None;
      } else {
        Popped(St(), role);
        r := Some(free[0]);
        role := role[free[0] := Held];
        free := free[1..];
      }
    }

    /** kfree: push the frame on the free list. */
    method Kfree(f: nat)
      requires Valid() && f in role && role[f] == Held
      modifies this`free, this`role
      ensures Valid() && SamePages(old(St()), St())
      ensures free == [f] + old(free) && role == old(role)[f := Free]
    {
      hide Inv;
      Pushed(St(), role, f);
      role := role[f := Free];
      free := [f] + free;
    }

    /** walkpgdir: whether there is a page table for the page, made on demand if `alloc`. */
    method Walkpgdir(page: nat, alloc: bool) returns (ok: bool)
      requires Valid() && page < USER
      modifies this
      ensures Valid() && SamePages(old(St()), St()) && ok == HasTable(St(), page / ENTRIES)
      ensures !alloc ==> St() == old(St()) && role == old(role)
      ensures ok <==> page / ENTRIES in Dirs(old(pgdir)) || (alloc && old(free) != [])
      ensures if !ok || page / ENTRIES in Dirs(old(pgdir)) then pgdir == old(pgdir) && free == old(free)
              else DirGrew(old(pgdir), pgdir, page / ENTRIES, old(free)[0]) && free == old(free)[1..]
      ensures Consumed(old(role), role, 0, 0)
    {
      hide Inv, SamePages, HasTable;
      var d := page / ENTRIES;
      DirEntry(St(), role, d);
      if pgdir[d].Present? {
        ok := true;
      } else {
        if !alloc {
          return false;
        }
        var f := Kalloc();
        if f.None? {
          return false;
        }
        TableAdded(St(), role, d, f.value, PTE_P + PTE_W + PTE_U);
        TransPages(old(St()), St(), WithTable(St(), d, f.value, PTE_P + PTE_W + PTE_U));
        tables := tables[f.value := EmptyTable()];
        pgdir := pgdir[d := Present(f.value, PTE_P + PTE_W + PTE_U)];
        role := role[f.value := Table(d)];
        DirEntry(St(), role, d);
        ok := true;
      }
    }

    /** mappages for one page. */
    method Mappage(page: nat, f: nat, perm: nat) returns (r: Mapped1)
      requires Valid() && page < USER && f in role && role[f] == Held
      modifies this
      ensures Valid()
      ensures r == RemapPanic <==> Lookup(old(St()), page).Present?
      ensures r == Done ==>
        forall p: nat :: p < USER ==>
          Lookup(St(), p) == if p == page then Present(f, perm + PTE_P) else Lookup(old(St()), p)
      ensures r != Done ==> SamePages(old(St()), St()) && f in role && role[f] == Held
      ensures r == NoMemory <==> page / ENTRIES !in Dirs(old(pgdir)) && old(free) == []
      ensures r == Done ==>
        && Dirs(pgdir) == Dirs(old(pgdir)) + {page / ENTRIES}
        && |free| == |old(free)| - if page / ENTRIES in Dirs(old(pgdir)) then 0 else 1
      ensures Consumed(old(role)[f := if r == Done then User(page) else Held], role, 0, 0)
    {
      hide Inv, Lookup, HasTable, Dirs, DirGrew;
      ghost var s0, r0 := St(), role;
      var ok := Walkpgdir(page, true);
      WithDir(old(pgdir), pgdir, page / ENTRIES, if old(free) == [] then 0 else old(free)[0]);
      NoDirNoPage(s0, page);
      if !ok {
        NoTable(St(), role, page);
        return NoMemory;
      }
      HasDir(St(), role, page);
      OnlyUser(St(), role, page);
      var t := pgdir[page / ENTRIES].frame;
      if tables[t][page % ENTRIES].Present? {
        return RemapPanic;
      }
      Mapped(St(), role, page, f, perm + PTE_P);
      tables := tables[t := tables[t][page % ENTRIES := Present(f, perm + PTE_P)]];
      role := role[f := User(page)];
      r := Done;
    }

    /** The body of deallocuvm's loop for a page that has a table. */
    method FreePage(page: nat)
      requires Valid() && page < USER && HasTable(St(), page / ENTRIES)
      modifies this
      ensures Valid() && Cleared(old(St()), St(), page, page + 1)
      ensures role == Released(old(role), page, page + 1)
    {
      hide Inv, Lookup, HasTable;
      ghost var s0, r0 := St(), role;
      HasDir(St(), role, page);
      OnlyUser(St(), role, page);
      var t := pgdir[page / ENTRIES].frame;
      var e := tables[t][page % ENTRIES];
      if e.Present? {
        Unmapped(St(), role, page);
        role := role[e.frame := Held];
        tables := tables[t := tables[t][page % ENTRIES := Absent]];
        ghost var s1 := St();
        Kfree(e.frame);
        assert forall p: nat :: p < USER ==> Lookup(St(), p) == Lookup(s1, p);
        assert role == Released(r0, page, page + 1);
      } else {
        assert role == Released(r0, page, page + 1);
      }
    }

    /** One turn of deallocuvm's loop: the page at a, or the rest of the directory entry without a table. */
    method DropNext(a: nat, oldsz: nat, ghost s0: State, ghost r0: Roles, ghost first: nat) returns (next: nat)
      requires Valid() && a < oldsz <= KERNBASE && a % PGSIZE == 0 && first <= a / PGSIZE
      requires Cleared(s0, St(), first, Min(a / PGSIZE, Pages(oldsz)))
      requires role == Released(r0, first, Min(a / PGSIZE, Pages(oldsz)))
      modifies this
      ensures Valid() && a < next <= oldsz + TABLE_SPAN && next % PGSIZE == 0 && first <= next / PGSIZE
      ensures Cleared(s0, St(), first, Min(next / PGSIZE, Pages(oldsz)))
      ensures role == Released(r0, first, Min(next / PGSIZE, Pages(oldsz)))
    {
      hide Inv, Lookup, HasTable, Cleared, Released;
      var page := a / PGSIZE;
      ghost var s1, r1 := St(), role;
      next := a;
      var ok := Walkpgdir(page, false);
      if !ok {
        SkipTable(s0, s1, r0, r1, first, page, a, Pages(oldsz));
        next := (a / TABLE_SPAN + 1) * TABLE_SPAN - PGSIZE;
      } else {
        FreePage(page);
        ClearNext(s0, r0, s1, St(), first, page);
      }
      next := next + PGSIZE;
    }

    /** deallocuvm: skipping a directory entry without a table has the effect of visiting its pages one by one.
        Every mapped page in the range goes back to the free list; nothing else changes. */
    method Deallocuvm(oldsz: nat, newsz: nat) returns (r: nat)
      requires Valid() && oldsz <= KERNBASE
      modifies this
      ensures Valid() && r == (if newsz >= oldsz then oldsz else newsz)
      ensures Cleared(old(St()), St(), Pages(newsz), Pages(oldsz))
      ensures Mapping(St()) == Dropped(Mapping(old(St())), Pages(newsz), Pages(oldsz))
      ensures role == Released(old(role), Pages(newsz), Pages(oldsz))
    {
      hide Inv, Lookup, HasTable, Cleared, Released, Mapping, Dropped;
      ghost var s0, r0, first, last := St(), role, Pages(newsz), Pages(oldsz);
      if newsz >= oldsz {
        NothingCleared(s0, r0, first, last);
        ClearedMap(s0, St(), first, last);
        return oldsz;
      }
      var a := RoundUp(newsz);
      NothingCleared(s0, r0, first, first);
      while a < oldsz
        invariant a % PGSIZE == 0 && first <= a / PGSIZE && Valid()
        invariant Cleared(s0, St(), first, Min(a / PGSIZE, last)) && role == Released(r0, first, Min(a / PGSIZE, last))
        decreases oldsz + TABLE_SPAN - a
      {
        a := DropNext(a, oldsz, s0, r0, first);
      }
      ClearedMap(s0, St(), first, last);
      r := newsz;
    }

    /** allocuvm. On success exactly the new pages are mapped, each to a frame that was free. A failure leaves
        every page of the range unmapped, so it restores the user mapping exactly when the range was vacant. */
    method Allocuvm(oldsz: nat, newsz: nat) returns (r: Grown)
      requires Valid() && oldsz <= KERNBASE
      modifies this
      ensures newsz >= KERNBASE ==> r == Failed && unchanged(this)
      ensures newsz < KERNBASE && newsz < oldsz ==> r == Size(oldsz) && unchanged(this)
      ensures oldsz <= newsz < KERNBASE ==>
        && (r == Remap <==> Blocked(old(St()), |old(free)|, Pages(oldsz), Pages(newsz)))
        && (r == Size(newsz) <==>
            && Vacant(old(St()), Pages(oldsz), Pages(newsz))
            && Need(old(pgdir), Pages(oldsz), Pages(newsz)) <= |old(free)|)
      ensures r != Remap ==> Valid()
      ensures r == Failed && newsz < KERNBASE ==>
        && Cleared(old(St()), St(), Pages(oldsz), Pages(newsz))
        && Consumed(Released(old(role), Pages(oldsz), Pages(newsz)), role, 0, 0)
        && Mapping(St()) == Dropped(Mapping(old(St())), Pages(oldsz), Pages(newsz))
        && (Mapping(St()) == Mapping(old(St())) <==> Vacant(old(St()), Pages(oldsz), Pages(newsz)))
      ensures oldsz <= newsz && r.Size? ==>
        && r.sz == newsz && Consumed(old(role), role, Pages(oldsz), Pages(newsz))
        && Filled(old(St()), St(), Pages(oldsz), Pages(newsz))
        && Extended(Mapping(old(St())), Mapping(St()), old(role), Pages(oldsz), Pages(newsz))
      ensures old(free) == [] && Pages(oldsz) < Pages(newsz) && newsz < KERNBASE ==> r == Failed
    {
      hide Inv, Lookup, HasTable, Filled, Consumed, SamePages, Cleared, Released, Vacant, Mapping, Dropped, Extended;
      hide Dirs, Span, Need, Counted, Blocked;
      CountStart(St(), Pages(oldsz));
      StartFill(St(), role, Pages(oldsz));
      if newsz >= KERNBASE {
        return Failed;
      }
      if newsz < oldsz {
        return Size(oldsz);
      }
      ghost var s0, r0, first, last := St(), role, Pages(oldsz), Pages(newsz);
      var a := RoundUp(oldsz);
      while a < newsz
        invariant a % PGSIZE == 0 && first <= a / PGSIZE <= last && Valid()
        invariant Filled(s0, St(), first, a / PGSIZE) && Consumed(r0, role, first, a / PGSIZE)
        invariant if a / PGSIZE == first then free == old(free) else old(free) != []
        invariant Counted(s0, |old(free)|, St(), first, a / PGSIZE)
        decreases newsz - a
      {
        var page := a / PGSIZE;
        ghost var s1, r1 := St(), role;
        var mem := Kalloc();
        if mem.None? {
          OutOfFrames(s0, |old(free)|, s1, first, page, last);
          var _ := Deallocuvm(newsz, oldsz);
          UndoFill(s0, s1, r0, r1, St(), role, first, page, last);
          SameMapping(s0, St());
          ClearedMap(s0, St(), first, last);
          return Failed;
        }
        ghost var s2, r2 := St(), role;
        var m := Mappage(page, mem.value, PTE_W + PTE_U);
        if m == RemapPanic {
          WasMapped(s0, s1, s2, first, page);
          Blocks(s0, |old(free)|, s1, first, page, last);
          return Remap;
        }
        if m == NoMemory {
          OutOfFrames(s0, |old(free)|, s1, first, page, last);
          ghost var s3, r3 := St(), role;
          var _ := Deallocuvm(newsz, oldsz);
          StillHeld(r3, mem.value, first, last);
          ghost var s4, r4 := St(), role;
          Kfree(mem.value);
          UndoHeld(s0, s1, s2, s3, s4, St(), r0, r1, r3, mem.value, first, page, last);
          SameMapping(s0, St());
          ClearedMap(s0, St(), first, last);
          return Failed;
        }
        FillNext(s0, s1, s2, St(), r0, r1, role, first, page, mem.value);
        CountNext(s0, |old(free)|, s1, St(), first, page);
        a := a + PGSIZE;
      }
      FilledMap(s0, St(), r0, role, first, last);
      EnoughFrames(s0, |old(free)|, St(), first, last);
      r := Size(newsz);
    }

    /** The body of freevm's loop: the table of directory entry i, if there is one. */
    method FreeTable(i: nat, ghost r0: Roles)
      requires Valid() && i < ENTRIES && FreedBelow(r0, role, i)
      requires forall p: nat :: p < USER ==> Lookup(St(), p).Absent?
      modifies this
      ensures Valid() && FreedBelow(r0, role, i + 1) && forall p: nat :: p < USER ==> Lookup(St(), p).Absent?
    {
      hide Inv, Lookup, HasTable;
      DirSize(St(), role);
      TableRoles(St(), role, i);
      if pgdir[i].Present? {
        var v := pgdir[i].frame;
        TableRemoved(St(), role, i);
        // the directory page is given back in the end, so its entries no longer count
        role := role[v := Held];
        pgdir := pgdir[i := Absent];
        Kfree(v);
      }
    }

    /** The loop of freevm over the directory. */
    method FreeTables(ghost r0: Roles)
      requires Valid() && FreedBelow(r0, role, 0) && forall p: nat :: p < USER ==> Lookup(St(), p).Absent?
      modifies this
      ensures Valid() && FreedBelow(r0, role, ENTRIES) && forall p: nat :: p < USER ==> Lookup(St(), p).Absent?
    {
      hide Inv, Lookup, HasTable, FreedBelow;
      for i := 0 to ENTRIES
        invariant Valid() && FreedBelow(r0, role, i)
        invariant forall p: nat :: p < USER ==> Lookup(St(), p).Absent?
      {
        FreeTable(i, r0);
      }
    }

    /** freevm: every frame of the address space, the directory page `dir` included, is on the free list again, and
        every other frame keeps its use. */
    method Freevm(dir: nat)
      requires Valid() && dir in role && role[dir] == Dir
      modifies this
      ensures Valid() && role.Keys == old(role).Keys
      ensures forall f :: f in role ==>
        role[f] == if f == dir || old(role)[f].User? || old(role)[f].Table? then Free else old(role)[f]
      ensures forall f :: f in role ==> (f in free <==> role[f] == Free)
      ensures Mapping(St()) == map[]
    {
      hide Inv, Lookup, HasTable, FreedBelow, Cleared, Released, Dropped;
      ghost var s0, r0 := St(), role;
      var _ := Deallocuvm(KERNBASE, 0);
      NoUsers(s0, r0, St(), role);
      FreeTables(r0);
      LastFreed(s0, r0, role, dir);
      ReleaseDir(St(), role, dir);
      role := role[dir := Held];
      Kfree(dir);
      FreeList(St(), role);
    }
  }

  lemma DirEntry(s: State, role: Roles, d: nat)
    requires Inv(s, role) && d < ENTRIES
    ensures |s.pgdir| == ENTRIES && (HasTable(s, d) <==> s.pgdir[d].Present?) && SamePages(s, s)
  {
    hide Lookup;
  }

  lemma OnePageOk(s: State, role: Roles)
    requires s.free == [] && role == map[0 := Dir, 1 := Table(0), 2 := User(0)]
    requires s.pgdir == seq(ENTRIES, (d: nat) => if d == 0 then Present(1, PTE_P) else Absent)
    requires s.tables == map[1 := seq(ENTRIES, (e: nat) => if e == 0 then Present(2, PTE_P) else Absent)]
    ensures Inv(s, role) && Lookup(s, 0) == Present(2, PTE_P)
  {
    assert HasTable(s, 0) && forall d: nat :: d != 0 ==> !HasTable(s, d);
    forall p: nat
      ensures Lookup(s, p) == if p == 0 then Present(2, PTE_P) else Absent
    {
      if p / ENTRIES == 0 {
        assert p % ENTRIES == p;
      }
    }
    hide Lookup;
  }

  /** Growing over a page that is already there, with nothing free: the call fails and takes the page away. */
  method GrowOver(a: AddressSpace, oldsz: nat, newsz: nat, page: nat) returns (r: Grown)
    requires a.Valid() && a.free == [] && oldsz <= newsz < KERNBASE
    requires Pages(oldsz) <= page < Pages(newsz) && page in Mapping(a.St())
    modifies a
    ensures r == Failed && a.Valid() && page !in Mapping(a.St()) && page in old(Mapping(a.St()))
    ensures Mapping(a.St()) == Dropped(old(Mapping(a.St())), Pages(oldsz), Pages(newsz))
  {
    hide Inv, Lookup, HasTable, Cleared, Consumed, Released, Filled, Extended, Vacant;
    r := a.Allocuvm(oldsz, newsz);
  }

  /** An address space with one page to which this happens. */
  method FailedGrowthUnmaps() returns (a: AddressSpace, r: Grown)
    ensures r == Failed && a.Valid() && Mapping(a.St()) == map[]
  {
    hide Inv, Lookup, HasTable;
    a := new AddressSpace.OnePage();
    OnlyPage(a.St(), a.role);
    r := GrowOver(a, 0, PGSIZE, 0);
  }

  lemma OnlyPage(s: State, role: Roles)
    requires Inv(s, role) && role == map[0 := Dir, 1 := Table(0), 2 := User(0)]
    ensures Mapping(s).Keys <= {0}
  {
    hide Lookup, HasTable;
  }

  /** The user frames and the tables of the first n directory entries are free; all else is as it was. */
  ghost predicate FreedBelow(r0: Roles, role: Roles, n: nat)
  {
    && role.Keys == r0.Keys
    && forall f :: f in role ==> role[f] == if r0[f].User? || (r0[f].Table? && r0[f].pdx < n) then Free else r0[f]
  }

  /** The pages from `first` up to `last` are mapped to frames of their own, the others as before. */
  ghost predicate Filled(s: State, s': State, first: nat, last: nat)
  {
    forall p: nat :: p < USER ==>
      if first <= p < last then Lookup(s, p).Absent? && Lookup(s', p).Present? && Lookup(s', p).flags == 7
      else Lookup(s', p) == Lookup(s, p)
  }

  lemma StartFill(s: State, role: Roles, first: nat)
    ensures Filled(s, s, first, first) && Consumed(role, role, first, first) && SamePages(s, s)
    ensures Consumed(role, role, 0, 0)
  {
  }

  lemma FillNext(s0: State, s1: State, s2: State, s3: State, r0: Roles, r1: Roles, r3: Roles, first: nat, page: nat,
                 f: nat)
    requires Filled(s0, s1, first, page) && SamePages(s1, s2) && first <= page < USER && f in r1 && r1[f] == Free
    requires Lookup(s2, page).Absent? && Lookup(s3, page).Present? && Lookup(s3, page).flags == 7
    requires forall p: nat :: p < USER && p != page ==> Lookup(s3, p) == Lookup(s2, p)
    requires Consumed(r0, r1, first, page) && Consumed(r1[f := Held][f := User(page)], r3, 0, 0)
    ensures Filled(s0, s3, first, page + 1) && Consumed(r0, r3, first, page + 1)
  {
    hide Lookup;
  }

  lemma WasMapped(s0: State, s1: State, s2: State, first: nat, page: nat)
    requires Filled(s0, s1, first, page) && SamePages(s1, s2) && page < USER && Lookup(s2, page).Present?
    ensures Lookup(s0, page).Present?
  {
    hide Lookup;
  }

  /** No page of the range is mapped. */
  ghost predicate Vacant(s: State, first: nat, last: nat)
  {
    forall p: nat :: first <= p < last ==> p < USER && Lookup(s, p).Absent?
  }

  lemma ClearedSame(s: State, s': State, first: nat, last: nat)
    requires Cleared(s, s', first, last) && last <= USER
    ensures SamePages(s, s') <==> Vacant(s, first, last)
  {
    hide Lookup;
    if !Vacant(s, first, last) {
      var p: nat :| first <= p < last && !(p < USER && Lookup(s, p).Absent?);
      assert Lookup(s', p) != Lookup(s, p);
    }
  }

  /** Giving back the range undoes the fill; only page tables remain. */
  lemma UndoFill(s0: State, s1: State, r0: Roles, r1: Roles, s2: State, r2: Roles, first: nat, page: nat, last: nat)
    requires Filled(s0, s1, first, page) && Consumed(r0, r1, first, page) && page <= last <= USER
    requires Cleared(s1, s2, first, last) && r2 == Released(r1, first, last)
    ensures Cleared(s0, s2, first, last) && Consumed(Released(r0, first, last), r2, 0, 0)
    ensures SamePages(s0, s2) <==> Vacant(s0, first, last)
  {
    assert Cleared(s0, s2, first, last) by { hide Lookup; }
    ClearedSame(s0, s2, first, last);
    hide Lookup;
  }

  lemma StillHeld(role: Roles, f: nat, first: nat, last: nat)
    requires f in role && role[f] == Held
    ensures f in Released(role, first, last) && Released(role, first, last)[f] == Held
  {
  }

  lemma UndoHeld(s0: State, s1: State, s2: State, s3: State, s4: State, s5: State, r0: Roles, r1: Roles, r3: Roles,
                 f: nat, first: nat, page: nat, last: nat)
    requires Filled(s0, s1, first, page) && Consumed(r0, r1, first, page) && page <= last <= USER
    requires SamePages(s1, s2) && SamePages(s2, s3) && Cleared(s3, s4, first, last) && SamePages(s4, s5)
    requires f in r1 && r1[f] == Free && Consumed(r1[f := Held][f := Held], r3, 0, 0) && f in r3 && r3[f] == Held
    ensures Cleared(s0, s5, first, last)
    ensures Consumed(Released(r0, first, last), Released(r3, first, last)[f := Free], 0, 0)
    ensures SamePages(s0, s5) <==> Vacant(s0, first, last)
  {
    assert Cleared(s0, s5, first, last) by { hide Lookup; }
    ClearedSame(s0, s5, first, last);
    hide Lookup;
  }

  lemma NoUsers(s0: State, r0: Roles, s: State, role: Roles)
    requires Inv(s0, r0) && Cleared(s0, s, Pages(0), Pages(KERNBASE)) && role == Released(r0, Pages(0), Pages(KERNBASE))
    ensures FreedBelow(r0, role, 0)
    ensures forall p: nat :: p < USER ==> Lookup(s, p).Absent?
  {
    hide Lookup, HasTable;
  }

  lemma DirSize(s: State, role: Roles)
    requires Inv(s, role)
    ensures |s.pgdir| == ENTRIES
  {
  }

  lemma TableRoles(s: State, role: Roles, d: nat)
    requires Inv(s, role) && d < ENTRIES
    ensures s.pgdir[d].Present? ==> s.pgdir[d].frame in role && role[s.pgdir[d].frame] == Table(d)
    ensures forall f :: f in role && role[f] == Table(d) ==> s.pgdir[d].Present? && s.pgdir[d].frame == f
  {
    hide Lookup, HasTable;
  }

  lemma LastFreed(s0: State, r0: Roles, role: Roles, dir: nat)
    requires Inv(s0, r0) && FreedBelow(r0, role, ENTRIES) && dir in r0 && r0[dir] == Dir
    ensures role.Keys == r0.Keys && role[dir] == Dir
    ensures forall f :: f in role ==> role[f] == if r0[f].User? || r0[f].Table? then Free else r0[f]
  {
    hide Lookup, HasTable;
  }

  lemma ReleaseDir(s: State, role: Roles, dir: nat)
    requires Inv(s, role) && dir in role && role[dir] == Dir
    ensures Inv(s, role[dir := Held])
  {
    hide Lookup, HasTable;
  }

  lemma FreeList(s: State, role: Roles)
    requires Inv(s, role)
    ensures forall f :: f in role ==> (f in s.free <==> role[f] == Free)
  {
    hide Lookup, HasTable;
  }

  datatype Mapped1 = Done | NoMemory | RemapPanic

  lemma NoTable(s: State, role: Roles, page: nat)
    requires Inv(s, role) && !HasTable(s, page / ENTRIES)
    ensures Lookup(s, page).Absent?
  {
  }

  lemma OnlyUser(s: State, role: Roles, page: nat)
    requires Inv(s, role) && page < USER && HasTable(s, page / ENTRIES)
    ensures Lookup(s, page) == s.tables[s.pgdir[page / ENTRIES].frame][page % ENTRIES]
    ensures forall f :: f in role && role[f] == User(page) ==> Lookup(s, page).Present? && Lookup(s, page).frame == f
  {
  }

  lemma NothingCleared(s: State, role: Roles, first: nat, last: nat)
    requires last <= first
    ensures Cleared(s, s, first, last) && Released(role, first, last) == role
  {
  }

  lemma ClearNext(s0: State, r0: Roles, s1: State, s2: State, first: nat, page: nat)
    requires Cleared(s0, s1, first, page) && Cleared(s1, s2, page, page + 1) && first <= page
    ensures Cleared(s0, s2, first, page + 1)
    ensures Released(Released(r0, first, page), page, page + 1) == Released(r0, first, page + 1)
  {
    hide Lookup;
  }

  function Min(a: nat, b: nat): (r: nat)
  {
    if a < b then a else b
  }

  /** Without a table all pages of the directory entry are unmapped already, and no frame backs them. */
  lemma SkipTable(s0: State, s1: State, r0: Roles, r1: Roles, first: nat, page: nat, a: nat, last: nat)
    requires Inv(s1, r1) && !HasTable(s1, page / ENTRIES) && page == a / PGSIZE && a % PGSIZE == 0 && page < USER
    requires Cleared(s0, s1, first, page) && r1 == Released(r0, first, page) && first <= page < last
    ensures var next := (a / TABLE_SPAN + 1) * TABLE_SPAN;
      && next % PGSIZE == 0 && a < next <= a + TABLE_SPAN && page < next / PGSIZE
      && Cleared(s0, s1, first, Min(next / PGSIZE, last)) && r1 == Released(r0, first, Min(next / PGSIZE, last))
  {
    var next := (a / TABLE_SPAN + 1) * TABLE_SPAN;
    SameEntry(a, page);
    forall p: nat | page <= p < next / PGSIZE
      ensures Lookup(s1, p) == Absent
    {
      assert p / ENTRIES == page / ENTRIES;
    }
    assert next / PGSIZE <= USER;
    hide Lookup, HasTable;
    forall f | f in r1 && r1[f].User?
      ensures !(page <= r1[f].page < next / PGSIZE)
    {
    }
  }

  lemma SameEntry(a: nat, page: nat)
    requires page == a / PGSIZE && a % PGSIZE == 0 && page < USER
    ensures var next := (a / TABLE_SPAN + 1) * TABLE_SPAN;
      && next % PGSIZE == 0 && next / PGSIZE == (page / ENTRIES + 1) * ENTRIES <= USER && a < next <= a + TABLE_SPAN
  {
    assert a == PGSIZE * page;
    assert a / TABLE_SPAN == page / ENTRIES;
    assert TABLE_SPAN == PGSIZE * ENTRIES;
  }

  lemma TransPages(a: State, b: State, c: State)
    requires SamePages(a, b) && SamePages(b, c)
    ensures SamePages(a, c)
  {
    hide Lookup;
  }

  lemma HasDir(s: State, role: Roles, page: nat)
    requires Inv(s, role) && HasTable(s, page / ENTRIES)
    ensures page / ENTRIES < |s.pgdir| && s.pgdir[page / ENTRIES].Present? && s.pgdir[page / ENTRIES].frame in s.tables
    ensures |s.tables[s.pgdir[page / ENTRIES].frame]| == ENTRIES
  {
  }
}
