/** Two-level page tables over physical frames, with one role for each frame of the allocator. */
module PageModel {
  const ENTRIES: nat := 1024           // entries per directory and per table
  const USER: nat := 0x8_0000          // pages below KERNBASE

  datatype Pte = Absent | Present(frame: nat, flags: nat)

  /** What a frame is used for. Held: returned by kalloc, not yet in use. */
  datatype Role = Free | Held | Dir | Table(pdx: nat) | User(page: nat)

  type Roles = map<nat, Role>

  /** The free list, the page directory, and the contents of the pages used as page tables. */
  datatype State = State(free: seq<nat>, pgdir: seq<Pte>, tables: map<nat, seq<Pte>>)

  predicate HasTable(s: State, d: nat)
  {
    && |s.pgdir| == ENTRIES && d < ENTRIES && s.pgdir[d].Present?
    && s.pgdir[d].frame in s.tables && |s.tables[s.pgdir[d].frame]| == ENTRIES
  }

  /** What the hardware finds for a virtual page. */
  function Lookup(s: State, page: nat): (e: Pte)
  {
    if HasTable(s, page / ENTRIES) then s.tables[s.pgdir[page / ENTRIES].frame][page % ENTRIES] else Absent
  }

  ghost predicate FreeOk(s: State, role: Roles)
  {
    && (forall k :: 0 <= k < |s.free| ==> s.free[k] in role && role[s.free[k]] == Free)
    && (forall j, k :: 0 <= j < k < |s.free| ==> s.free[j] != s.free[k])
    && (forall f :: f in role && role[f] == Free ==> f in s.free)
  }

  ghost predicate TablesOk(s: State, role: Roles)
  {
    && |s.pgdir| == ENTRIES
    && (forall d: nat :: d < ENTRIES && s.pgdir[d].Present? ==>
          HasTable(s, d) && s.pgdir[d].frame in role && role[s.pgdir[d].frame] == Table(d))
    && (forall f :: f in role && role[f].Table? ==>
          role[f].pdx < ENTRIES && s.pgdir[role[f].pdx].Present? && s.pgdir[role[f].pdx].frame == f)
  }

  ghost predicate UsersOk(s: State, role: Roles)
  {
    && (forall p: nat :: p < USER && Lookup(s, p).Present? ==>
          Lookup(s, p).frame in role && role[Lookup(s, p).frame] == User(p))
    && (forall f :: f in role && role[f].User? ==>
          role[f].page < USER && Lookup(s, role[f].page).Present? && Lookup(s, role[f].page).frame == f)
  }

  /** Every frame has exactly one use, and the lists and tables say the same. */
  ghost predicate Inv(s: State, role: Roles)
  {
    FreeOk(s, role) && TablesOk(s, role) && UsersOk(s, role)
  }

  /** The address space as a flat partial map from user pages to frames. */
  ghost function Mapping(s: State): (m: map<nat, Pte>)
  {
    map p: nat | p < USER && Lookup(s, p).Present? :: Lookup(s, p)
  }

  ghost predicate SamePages(s: State, s': State)
  {
    forall p: nat :: p < USER ==> Lookup(s', p) == Lookup(s, p)
  }

  lemma SameMapping(s: State, s': State)
    ensures SamePages(s, s') <==> Mapping(s') == Mapping(s)
  {
    hide Lookup;
    if Mapping(s') == Mapping(s) {
      forall p: nat | p < USER
        ensures Lookup(s', p) == Lookup(s, p)
      {
        assert p in Mapping(s) <==> Lookup(s, p).Present?;
        assert p in Mapping(s') <==> Lookup(s', p).Present?;
      }
    }
  }

  /** No two pages share a frame, and no mapped frame is free or a page table. */
  lemma NoSharing(s: State, role: Roles, p: nat, q: nat)
    requires Inv(s, role) && p in Mapping(s) && q in Mapping(s)
    ensures Mapping(s)[p].frame == Mapping(s)[q].frame ==> p == q
    ensures Mapping(s)[p].frame !in s.free && Mapping(s)[p].frame in role && role[Mapping(s)[p].frame] == User(p)
  {
    hide Lookup, HasTable;
  }

  // ---------- kalloc and kfree ----------

  lemma Popped(s: State, role: Roles)
    requires Inv(s, role) && s.free != []
    ensures s.free[0] in role && role[s.free[0]] == Free
    ensures Inv(s.(free := s.free[1..]), role[s.free[0] := Held])
    ensures SamePages(s, s.(free := s.free[1..]))
  {
    var s' := s.(free := s.free[1..]);
    assert forall p: nat :: p < USER ==> Lookup(s', p) == Lookup(s, p);
    assert forall d: nat :: HasTable(s', d) == HasTable(s, d);
    hide Lookup, HasTable;
    assert s.free == [s.free[0]] + s'.free;
  }

  lemma Pushed(s: State, role: Roles, f: nat)
    requires Inv(s, role) && f in role && role[f] == Held
    ensures Inv(s.(free := [f] + s.free), role[f := Free])
    ensures SamePages(s, s.(free := [f] + s.free))
  {
    var s' := s.(free := [f] + s.free);
    assert forall p: nat :: p < USER ==> Lookup(s', p) == Lookup(s, p);
    assert forall d: nat :: HasTable(s', d) == HasTable(s, d);
    hide Lookup, HasTable;
    assert f in s'.free;
  }

  // ---------- Page tables ----------

  function EmptyTable(): (t: seq<Pte>)
    ensures |t| == ENTRIES
  {
    seq(ENTRIES, k => Absent)
  }

  /** walkpgdir installs a zeroed page as table d. */
  function WithTable(s: State, d: nat, f: nat, flags: nat): (s': State)
    requires d < |s.pgdir|
  {
    s.(pgdir := s.pgdir[d := Present(f, flags)], tables := s.tables[f := EmptyTable()])
  }

  lemma TableAdded(s: State, role: Roles, d: nat, f: nat, flags: nat)
    requires Inv(s, role) && d < ENTRIES && s.pgdir[d].Absent? && f in role && role[f] == Held
    ensures Inv(WithTable(s, d, f, flags), role[f := Table(d)])
    ensures SamePages(s, WithTable(s, d, f, flags))
  {
    var s', role' := WithTable(s, d, f, flags), role[f := Table(d)];
    assert forall e: nat :: e < ENTRIES && e != d && s.pgdir[e].Present? ==> s.pgdir[e].frame != f;
    assert forall e: nat :: e < ENTRIES && s'.pgdir[e].Present? ==> HasTable(s', e);
    forall p: nat
      ensures Lookup(s', p) == Lookup(s, p)
    {
      var e := p / ENTRIES;
      if e < ENTRIES && e != d && s.pgdir[e].Present? {
        assert s.pgdir[e].frame != f;
      }
    }
    hide Lookup, HasTable;
  }

  // ---------- Leaf entries ----------

  function WithEntry(s: State, page: nat, e: Pte): (s': State)
    requires HasTable(s, page / ENTRIES)
  {
    var t := s.pgdir[page / ENTRIES].frame;
    s.(tables := s.tables[t := s.tables[t][page % ENTRIES := e]])
  }

  /** Writing one entry changes the lookup of that page and no other. */
  lemma EntryWritten(s: State, role: Roles, page: nat, e: Pte)
    requires TablesOk(s, role) && HasTable(s, page / ENTRIES)
    ensures TablesOk(WithEntry(s, page, e), role)
    ensures forall p: nat :: Lookup(WithEntry(s, page, e), p) == if p == page then e else Lookup(s, p)
  {
    var s' := WithEntry(s, page, e);
    forall p: nat
      ensures Lookup(s', p) == if p == page then e else Lookup(s, p)
    {
      var d, k := p / ENTRIES, page / ENTRIES;
      if d < ENTRIES && s.pgdir[d].Present? && d != k {
        assert s.pgdir[d].frame != s.pgdir[k].frame;
      }
      assert p == page <==> d == k && p % ENTRIES == page % ENTRIES;
    }
    assert forall d: nat :: d < ENTRIES && s.pgdir[d].Present? ==> HasTable(s', d);
  }

  lemma Mapped(s: State, role: Roles, page: nat, f: nat, flags: nat)
    requires Inv(s, role) && page < USER && HasTable(s, page / ENTRIES) && Lookup(s, page).Absent?
    requires f in role && role[f] == Held
    ensures Inv(WithEntry(s, page, Present(f, flags)), role[f := User(page)])
    ensures forall p: nat ::
      Lookup(WithEntry(s, page, Present(f, flags)), p) == if p == page then Present(f, flags) else Lookup(s, p)
  {
    EntryWritten(s, role, page, Present(f, flags));
    hide Lookup, HasTable;
  }

  lemma Unmapped(s: State, role: Roles, page: nat)
    requires Inv(s, role) && page < USER && HasTable(s, page / ENTRIES) && Lookup(s, page).Present?
    ensures Lookup(s, page).frame in role && role[Lookup(s, page).frame] == User(page)
    ensures Inv(WithEntry(s, page, Absent), role[Lookup(s, page).frame := Held])
    ensures forall p: nat :: Lookup(WithEntry(s, page, Absent), p) == if p == page then Absent else Lookup(s, p)
  {
    EntryWritten(s, role, page, Absent);
    hide Lookup, HasTable;
  }

  // ---------- Tearing the directory down ----------

  /** freevm gives back table d. */
  function WithoutTable(s: State, d: nat): (s': State)
    requires d < |s.pgdir|
  {
    s.(pgdir := s.pgdir[d := Absent])
  }

  lemma TableRemoved(s: State, role: Roles, d: nat)
    requires Inv(s, role) && d < ENTRIES && s.pgdir[d].Present?
    requires forall p: nat :: p < USER ==> Lookup(s, p).Absent?
    ensures s.pgdir[d].frame in role && Inv(WithoutTable(s, d), role[s.pgdir[d].frame := Held])
    ensures forall p: nat :: p < USER ==> Lookup(WithoutTable(s, d), p).Absent?
  {
    var s' := WithoutTable(s, d);
    assert forall e: nat :: e < ENTRIES && e != d && s.pgdir[e].Present? ==> HasTable(s', e);
    assert forall p: nat :: Lookup(s', p) == Lookup(s, p) || Lookup(s', p).Absent?;
    hide Lookup;
  }
}
