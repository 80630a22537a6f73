/** What link, unlink, create and the freeing of an inode do to the inode table, and what they keep. */
module LinkSteps {
  import opened LinkModel

  const Empty: Entry := Entry("", 0)

  // ---------- An inode that is not a directory ----------

  lemma PlainShaped(t: Table, home: seq<Place>, i: nat, x: Inode)
    requires Shaped(t, home) && 0 < i < |t| && t[i].kind != Directory && x.kind != Directory
    ensures Shaped(t[i := x], home)
  {
    var t' := t[i := x];
    forall d | 0 <= d < |t'| && Linked(t'[d]) && d != ROOT
      ensures Named(t', home, d)
    {
      NamedAt(t, home, d);
    }
    forall p, k | 0 <= p < |t'| && t'[p].kind == Directory && 2 <= k < |t'[p].entries| && t'[p].entries[k].inum != 0
      ensures Entered(t', home, p, k)
    {
      EnteredAt(t, home, p, k);
    }
  }

  /** Replacing an inode that no reference is counted in leaves every count but its own. */
  lemma SilentCounts(t: Table, pending: seq<nat>, i: nat, x: Inode, v: nat)
    requires Conserved(t, pending) && 0 < i < |t| && !Linked(t[i]) && !Linked(x)
    requires x.nlink - v == t[i].nlink - pending[i]
    ensures Conserved(t[i := x], pending[i := v])
  {
    var t', pending' := t[i := x], pending[i := v];
    forall j | 1 <= j < |t'|
      ensures Counted(t', pending', j)
    {
      CountedAt(t, pending, j);
      RefsSet(t, i, x, j, |t|);
    }
  }

  lemma PlainStep(t: Table, pending: seq<nat>, home: seq<Place>, i: nat, x: Inode, v: nat)
    requires Inv(t, pending, home) && 0 < i < |t| && t[i].kind != Directory && x.kind != Directory
    requires x.nlink - v == t[i].nlink - pending[i] && Plain(t[i := x], pending[i := v], i)
    ensures Inv(t[i := x], pending[i := v], home)
  {
    PlainShaped(t, home, i, x);
    SilentCounts(t, pending, i, x, v);
    var t', pending' := t[i := x], pending[i := v];
    forall j | 0 <= j < |t'|
      ensures Plain(t', pending', j)
    {
      PlainAt(t, pending, home, j);
    }
    hide Shaped, Conserved;
  }

  // ---------- A new name for a file ----------

  function Enter(t: Table, dp: nat, k: nat, e: Entry): (r: Table)
    requires dp < |t| && k <= |t[dp].entries|
    ensures |r| == |t|
  {
    t[dp := WithEntry(t[dp], k, e)]
  }

  /** Neither the old nor the new entry in slot k names a directory. */
  predicate Harmless(t: Table, dp: nat, k: nat, e: Entry)
    requires dp < |t|
  {
    && Linked(t[dp]) && 2 <= k <= |t[dp].entries|
    && (k < |t[dp].entries| ==> t[dp].entries[k].inum < |t| && t[t[dp].entries[k].inum].kind != Directory)
    && e.inum < |t| && t[e.inum].kind != Directory && (e.inum != 0 ==> e.name != "." && e.name != "..")
  }

  lemma EnterDots(t: Table, home: seq<Place>, dp: nat, k: nat, e: Entry, d: nat)
    requires Shaped(t, home) && dp < |t| && Harmless(t, dp, k, e) && d < |t| && Enter(t, dp, k, e)[d].kind == Directory
    ensures Dots(Enter(t, dp, k, e), d)
  {
    DotsAt(t, home, d);
  }

  lemma EnterNamed(t: Table, home: seq<Place>, dp: nat, k: nat, e: Entry, d: nat)
    requires Shaped(t, home) && dp < |t| && Harmless(t, dp, k, e) && d < |t| && Linked(Enter(t, dp, k, e)[d])
    requires d != ROOT
    requires |home| == |t|
    ensures Dots(Enter(t, dp, k, e), d) && Named(Enter(t, dp, k, e), home, d)
  {
    EnterDots(t, home, dp, k, e, d);
    NamedAt(t, home, d);
    hide Shaped;
  }

  lemma EnterEntered(t: Table, home: seq<Place>, dp: nat, k: nat, e: Entry, p: nat, l: nat)
    requires Shaped(t, home) && dp < |t| == |home| && Harmless(t, dp, k, e) && p < |t|
    requires var x := Enter(t, dp, k, e)[p]; x.kind == Directory && 2 <= l < |x.entries| && x.entries[l].inum != 0
    ensures Entered(Enter(t, dp, k, e), home, p, l)
  {
    var t' := Enter(t, dp, k, e);
    assert |t'| == |t| && forall i :: 0 <= i < |t| ==> t'[i].kind == t[i].kind && t'[i].nlink == t[i].nlink;
    if p == dp && l == k {
      assert t'[p].entries[l] == e;
    } else {
      assert l < |t[p].entries| && t'[p].entries[l] == t[p].entries[l];
      hide Shaped, Enter;
      EnteredAt(t, home, p, l);
    }
    hide Shaped, Enter;
  }

  lemma EnterShaped(t: Table, home: seq<Place>, dp: nat, k: nat, e: Entry)
    requires Shaped(t, home) && dp < |t| && Harmless(t, dp, k, e)
    ensures Shaped(Enter(t, dp, k, e), home)
  {
    var t' := Enter(t, dp, k, e);
    assert ROOT < |t'| == |home| && t'[0].kind == Unused && Linked(t'[ROOT]);
    hide Harmless, Dots, Named, Entered, Enter;
    forall d | 0 <= d < |t'| && t'[d].kind == Directory
      ensures Dots(t', d)
    {
      EnterDots(t, home, dp, k, e, d);
    }
    forall d | 0 <= d < |t'| && Linked(t'[d]) && d != ROOT
      ensures Named(t', home, d)
    {
      EnterNamed(t, home, dp, k, e, d);
    }
    forall p, l | 0 <= p < |t'| && t'[p].kind == Directory && 2 <= l < |t'[p].entries| && t'[p].entries[l].inum != 0
      ensures Entered(t', home, p, l)
    {
      EnterEntered(t, home, dp, k, e, p, l);
    }
  }

  lemma EnterRefs(t: Table, dp: nat, k: nat, e: Entry, i: nat)
    requires dp < |t| && Linked(t[dp]) && Vacant(t[dp], k) && i > 0
    ensures Refs(Enter(t, dp, k, e), i, |t|) == Refs(t, i, |t|) + One(e, i)
  {
    RefsSet(t, dp, WithEntry(t[dp], k, e), i, |t|);
    FillRefs(t[dp], k, e, i);
  }

  lemma EnterKeepsShape(t: Table, home: seq<Place>, dp: nat, k: nat, e: Entry)
    requires Shaped(t, home) && dp < |t| && Linked(t[dp]) && Vacant(t[dp], k) && e.name != "." && e.name != ".."
    requires 0 < e.inum < |t| && t[e.inum].kind != Directory
    ensures Shaped(Enter(t, dp, k, e), home)
  {
    VacantPastDots(t, home, dp, k);
    EnterShaped(t, home, dp, k, e);
    hide Shaped, Enter;
  }

  lemma EnterCounted(t: Table, pending: seq<nat>, dp: nat, k: nat, e: Entry, i: nat)
    requires Conserved(t, pending) && dp < |t| && Linked(t[dp]) && Vacant(t[dp], k) && e.name != "."
    requires 0 < e.inum < |t| && |t| == |pending| && pending[e.inum] > 0 && 1 <= i < |t|
    ensures Counted(Enter(t, dp, k, e), pending[e.inum := pending[e.inum] - 1], i)
  {
    hide Refs, Conserved;
    CountedAt(t, pending, i);
    EnterRefs(t, dp, k, e, i);
  }

  lemma EnterStep(t: Table, pending: seq<nat>, home: seq<Place>, dp: nat, k: nat, e: Entry)
    requires Inv(t, pending, home) && dp < |t| && Linked(t[dp]) && Vacant(t[dp], k) && e.name != "." && e.name != ".."
    requires 0 < e.inum < |t| && |t| == |pending| && t[e.inum].kind != Directory && pending[e.inum] > 0
    ensures Inv(Enter(t, dp, k, e), pending[e.inum := pending[e.inum] - 1], home)
  {
    var t', pending' := Enter(t, dp, k, e), pending[e.inum := pending[e.inum] - 1];
    EnterKeepsShape(t, home, dp, k, e);
    hide Shaped, Refs, WithEntry, Linked;
    forall i | 1 <= i < |t'|
      ensures Counted(t', pending', i)
    {
      EnterCounted(t, pending, dp, k, e, i);
    }
    forall i | 0 <= i < |t'|
      ensures Plain(t', pending', i)
    {
      PlainAt(t, pending, home, i);
    }
    hide Shaped;
  }

  // ---------- Removing the name of a file ----------

  lemma EraseRefs(t: Table, dp: nat, k: nat, i: nat)
    requires dp < |t| && Linked(t[dp]) && k < |t[dp].entries| && i > 0
    ensures Refs(Enter(t, dp, k, Empty), i, |t|) == Refs(t, i, |t|) - One(t[dp].entries[k], i)
  {
    RefsSet(t, dp, WithEntry(t[dp], k, Empty), i, |t|);
    EntrySet(t[dp].entries, k, Empty, i);
  }

  /** A name in a directory is a reference that is counted. */
  lemma NameCounts(t: Table, pending: seq<nat>, home: seq<Place>, dp: nat, k: nat)
    requires Inv(t, pending, home) && dp < |t| && t[dp].kind == Directory && 2 <= k < |t[dp].entries|
    requires t[dp].entries[k].inum != 0
    ensures Entered(t, home, dp, k) && t[t[dp].entries[k].inum].nlink > 0 && t[t[dp].entries[k].inum].kind != Unused
  {
    EnteredAt(t, home, dp, k);
    var i := t[dp].entries[k].inum;
    EntryAtLeast(t[dp].entries, k, i);
    DirAtLeast(t, dp, i, |t|);
    CountedAt(t, pending, i);
    PlainAt(t, pending, home, i);
  }

  function Dropped(x: Inode): (r: Inode)
    requires x.nlink > 0
  {
    x.(nlink := x.nlink - 1)
  }

  lemma EraseCounted(t: Table, pending: seq<nat>, dp: nat, k: nat, ip: nat, i: nat)
    requires Conserved(t, pending) && dp < |t| && Linked(t[dp]) && k < |t[dp].entries| && 1 <= i < |t|
    requires t[dp].entries[k].inum == ip && t[dp].entries[k].name != "." && 0 < ip < |t| && t[ip].kind != Directory
    requires t[ip].nlink > 0
    ensures Counted(Enter(t, dp, k, Empty)[ip := Dropped(t[ip])], pending, i)
  {
    CountedAt(t, pending, i);
    EraseRefs(t, dp, k, i);
    RefsSet(Enter(t, dp, k, Empty), ip, Dropped(t[ip]), i, |t|);
  }

  /** Unlinking a file: its name goes and its count drops. */
  lemma EraseStep(t: Table, pending: seq<nat>, home: seq<Place>, dp: nat, k: nat, ip: nat)
    requires Inv(t, pending, home) && dp < |t| && Linked(t[dp]) && 2 <= k < |t[dp].entries|
    requires t[dp].entries[k].inum == ip && 0 < ip < |t| && t[ip].kind != Directory && t[ip].nlink > 0
    ensures Inv(Enter(t, dp, k, Empty)[ip := Dropped(t[ip])], pending, home)
  {
    var u, t' := Enter(t, dp, k, Empty), Enter(t, dp, k, Empty)[ip := Dropped(t[ip])];
    EnterShaped(t, home, dp, k, Empty);
    PlainShaped(u, home, ip, Dropped(t[ip]));
    EnteredAt(t, home, dp, k);
    hide Shaped;
    forall i | 1 <= i < |t'|
      ensures Counted(t', pending, i)
    {
      EraseCounted(t, pending, dp, k, ip, i);
    }
    PlainAt(t, pending, home, ip);
    forall i | 0 <= i < |t'|
      ensures Plain(t', pending, i)
    {
      PlainAt(t, pending, home, i);
    }
    hide Counted;
  }

  // ---------- A new directory ----------

  function Raised(x: Inode): (r: Inode)
  {
    x.(nlink := x.nlink + 1)
  }

  function NewDir(d: nat, dp: nat): (r: Inode)
  {
    Inode(Directory, 1, [Entry(".", d), Entry("..", dp)])
  }

  function MakeDir(t: Table, dp: nat, k: nat, name: string, d: nat): (r: Table)
    requires dp < |t| && d < |t| && k <= |t[dp].entries|
    ensures |r| == |t|
  {
    t[d := NewDir(d, dp)][dp := WithEntry(Raised(t[dp]), k, Entry(name, d))]
  }

  predicate CanMake(t: Table, dp: nat, k: nat, name: string, d: nat)
  {
    && dp < |t| && Linked(t[dp]) && Vacant(t[dp], k) && k >= 2 && name != "." && name != ".."
    && 0 < d < |t| && t[d] == Cleared
  }

  lemma MakeDots(t: Table, home: seq<Place>, dp: nat, k: nat, name: string, d: nat, c: nat)
    requires Shaped(t, home) && CanMake(t, dp, k, name, d) && c < |t|
    requires MakeDir(t, dp, k, name, d)[c].kind == Directory
    ensures Dots(MakeDir(t, dp, k, name, d), c)
  {
    DotsAt(t, home, dp);
    if c != d {
      DotsAt(t, home, c);
    }
    assert ROOT != d;
    hide Shaped;
  }

  lemma MakeNamed(t: Table, home: seq<Place>, dp: nat, k: nat, name: string, d: nat, c: nat)
    requires Shaped(t, home) && CanMake(t, dp, k, name, d) && c < |t| == |home|
    requires Linked(MakeDir(t, dp, k, name, d)[c]) && c != ROOT
    ensures Dots(MakeDir(t, dp, k, name, d), c) && Named(MakeDir(t, dp, k, name, d), home[d := Place(dp, k)], c)
  {
    MakeDots(t, home, dp, k, name, d, c);
    if c != d {
      NamedAt(t, home, c);
    }
    hide Shaped;
  }

  /** Nothing that is counted names an unused inode. */
  lemma UnusedUnnamed(t: Table, pending: seq<nat>, home: seq<Place>, d: nat, p: nat, l: nat)
    requires Inv(t, pending, home) && d < |t| && t[d].kind == Unused
    requires p < |t| && t[p].kind == Directory && 2 <= l < |t[p].entries| && t[p].entries[l].inum != 0
    ensures t[p].entries[l].inum != d
  {
    NameCounts(t, pending, home, p, l);
  }

  lemma MakeEntered(t: Table, pending: seq<nat>, home: seq<Place>, dp: nat, k: nat, name: string, d: nat, p: nat,
                    l: nat)
    requires Inv(t, pending, home) && CanMake(t, dp, k, name, d) && p < |t| == |home|
    requires var x := MakeDir(t, dp, k, name, d)[p];
      x.kind == Directory && 2 <= l < |x.entries| && x.entries[l].inum != 0
    ensures Entered(MakeDir(t, dp, k, name, d), home[d := Place(dp, k)], p, l)
  {
    assert d != ROOT;
    hide Shaped, Conserved;
    if p != dp || l != k {
      UnusedUnnamed(t, pending, home, d, p, l);
      EnteredAt(t, home, p, l);
    }
  }

  lemma MakeShaped(t: Table, pending: seq<nat>, home: seq<Place>, dp: nat, k: nat, name: string, d: nat)
    requires Inv(t, pending, home) && |t| == |home| && CanMake(t, dp, k, name, d)
    ensures Shaped(MakeDir(t, dp, k, name, d), home[d := Place(dp, k)])
  {
    var t', home' := MakeDir(t, dp, k, name, d), home[d := Place(dp, k)];
    assert ROOT < |t'| == |home'| && t'[0].kind == Unused && Linked(t'[ROOT]);
    hide Inv, CanMake, Dots, Named, Entered, MakeDir;
    forall c | 0 <= c < |t'| && t'[c].kind == Directory
      ensures Dots(t', c)
    {
      MakeDots(t, home, dp, k, name, d, c);
    }
    forall c | 0 <= c < |t'| && Linked(t'[c]) && c != ROOT
      ensures Named(t', home', c)
    {
      MakeNamed(t, home, dp, k, name, d, c);
    }
    forall p, l | 0 <= p < |t'| && t'[p].kind == Directory && 2 <= l < |t'[p].entries| && t'[p].entries[l].inum != 0
      ensures Entered(t', home', p, l)
    {
      MakeEntered(t, pending, home, dp, k, name, d, p, l);
    }
  }

  lemma DotRefs(d: nat, dp: nat, i: nat)
    ensures DirRefs(NewDir(d, dp), i) == if i == dp then 1 else 0
  {
    var es := NewDir(d, dp).entries;
    assert es[..1] == [Entry(".", d)] && es[..1][..0] == [];
    assert EntryRefs(es, i) == EntryRefs(es[..1], i) + One(es[1], i);
  }

  lemma MakeCounted(t: Table, pending: seq<nat>, dp: nat, k: nat, name: string, d: nat, i: nat)
    requires Conserved(t, pending) && CanMake(t, dp, k, name, d) && 1 <= i < |t|
    ensures Counted(MakeDir(t, dp, k, name, d), pending, i)
  {
    var e, u := Entry(name, d), t[d := NewDir(d, dp)];
    CountedAt(t, pending, i);
    RefsSet(t, d, NewDir(d, dp), i, |t|);
    RefsSet(u, dp, WithEntry(Raised(t[dp]), k, e), i, |t|);
    DotRefs(d, dp, i);
    FillRefs(Raised(t[dp]), k, e, i);
  }

  /** Making a directory: the parent's count rises for "..", the child's name is entered. */
  lemma MakeStep(t: Table, pending: seq<nat>, home: seq<Place>, dp: nat, k: nat, name: string, d: nat)
    requires Inv(t, pending, home) && |t| == |home| && CanMake(t, dp, k, name, d)
    ensures Inv(MakeDir(t, dp, k, name, d), pending, home[d := Place(dp, k)])
  {
    var t' := MakeDir(t, dp, k, name, d);
    MakeShaped(t, pending, home, dp, k, name, d);
    hide Shaped, Counted;
    forall i | 1 <= i < |t'|
      ensures Counted(t', pending, i)
    {
      MakeCounted(t, pending, dp, k, name, d, i);
    }
    forall i | 0 <= i < |t'|
      ensures Plain(t', pending, i)
    {
      PlainAt(t, pending, home, i);
    }
  }

  // ---------- Removing an empty directory ----------

  predicate NoNames(x: Inode)
  {
    forall k :: 2 <= k < |x.entries| ==> x.entries[k].inum == 0
  }

  /** The entry at slot k of dp names the empty directory d. */
  predicate CanRemove(t: Table, home: seq<Place>, dp: nat, k: nat, d: nat)
  {
    && dp < |t| && Linked(t[dp]) && 2 <= k < |t[dp].entries| && t[dp].entries[k].inum == d
    && 0 < d < |t| && Linked(t[d]) && NoNames(t[d])
  }

  /** No directory has an empty one as its parent. */
  lemma Childless(t: Table, home: seq<Place>, dp: nat, k: nat, d: nat, q: nat)
    requires Shaped(t, home) && CanRemove(t, home, dp, k, d) && q < |t| && Linked(t[q])
    ensures d != ROOT && home[d] == Place(dp, k) && d != dp && t[d].entries[1].inum == dp && Dots(t, q)
    ensures t[q].entries[1].inum != d
  {
    EnteredAt(t, home, dp, k);
    NamedAt(t, home, d);
    DotsAt(t, home, q);
    if q != ROOT {
      NamedAt(t, home, q);
    }
  }

  lemma OtherEntry(t: Table, home: seq<Place>, dp: nat, k: nat, d: nat, q: nat, l: nat)
    requires Shaped(t, home) && CanRemove(t, home, dp, k, d) && q < |t| && Linked(t[q]) && l < |t[q].entries|
    requires !(q == dp && l == k)
    ensures One(t[q].entries[l], d) == 0
  {
    hide Shaped;
    Childless(t, home, dp, k, d, q);
    if l >= 2 && t[q].entries[l].inum == d {
      EnteredAt(t, home, q, l);
      assert false;
    }
  }

  /** The only reference to an empty directory is its name. */
  lemma OneName(t: Table, home: seq<Place>, dp: nat, k: nat, d: nat, q: nat)
    requires Shaped(t, home) && CanRemove(t, home, dp, k, d) && q < |t|
    ensures DirRefs(t[q], d) == if q == dp then One(t[dp].entries[k], d) else 0
  {
    hide Shaped, One, EntryRefs;
    if Linked(t[q]) {
      var es := t[q].entries;
      forall l | 0 <= l < |es| && !(q == dp && l == k)
        ensures One(es[l], d) == 0
      {
        OtherEntry(t, home, dp, k, d, q, l);
      }
      OnlyEntry(es, if q == dp then k else |es|, d);
    }
  }

  lemma EmptyHasOne(t: Table, pending: seq<nat>, home: seq<Place>, dp: nat, k: nat, d: nat)
    requires Inv(t, pending, home) && CanRemove(t, home, dp, k, d)
    ensures t[d].nlink == 1
  {
    forall q | 0 <= q < |t|
      ensures DirRefs(t[q], d) == if q == dp then One(t[dp].entries[k], d) else 0
    {
      OneName(t, home, dp, k, d, q);
    }
    OnlyDir(t, dp, d, |t|);
    EnteredAt(t, home, dp, k);
    CountedAt(t, pending, d);
    PlainAt(t, pending, home, d);
  }

  lemma ParentHasTwo(t: Table, pending: seq<nat>, home: seq<Place>, dp: nat, k: nat, d: nat)
    requires Inv(t, pending, home) && CanRemove(t, home, dp, k, d)
    ensures t[dp].nlink >= 2
  {
    Childless(t, home, dp, k, d, dp);
    DotsAt(t, home, d);
    var p, l := ROOT, 1;
    if dp != ROOT {
      NamedAt(t, home, dp);
      p, l := home[dp].dir, home[dp].slot;
      EnteredAt(t, home, p, l);
    }
    assert p != d;
    EntryAtLeast(t[p].entries, l, dp);
    EntryAtLeast(t[d].entries, 1, dp);
    if p < d {
      TwoDirs(t, p, d, dp, |t|);
    } else {
      TwoDirs(t, d, p, dp, |t|);
    }
    CountedAt(t, pending, dp);
  }

  function Remove(t: Table, dp: nat, k: nat, d: nat): (r: Table)
    requires dp < |t| && d < |t| && k < |t[dp].entries| && t[dp].nlink > 0 && t[d].nlink > 0
    ensures |r| == |t|
  {
    t[dp := Dropped(WithEntry(t[dp], k, Empty))][d := Dropped(t[d])]
  }

  predicate Removing(t: Table, home: seq<Place>, dp: nat, k: nat, d: nat)
  {
    CanRemove(t, home, dp, k, d) && t[d].nlink == 1 && t[dp].nlink >= 2
  }

  lemma RemoveDots(t: Table, home: seq<Place>, dp: nat, k: nat, d: nat, c: nat)
    requires Shaped(t, home) && Removing(t, home, dp, k, d) && c < |t| && Remove(t, dp, k, d)[c].kind == Directory
    ensures Dots(Remove(t, dp, k, d), c)
  {
    DotsAt(t, home, c);
    hide Shaped;
  }

  lemma RemoveNamed(t: Table, home: seq<Place>, dp: nat, k: nat, d: nat, c: nat)
    requires Shaped(t, home) && Removing(t, home, dp, k, d) && c < |t| == |home|
    requires Linked(Remove(t, dp, k, d)[c]) && c != ROOT
    ensures Dots(Remove(t, dp, k, d), c) && Named(Remove(t, dp, k, d), home, c)
  {
    RemoveDots(t, home, dp, k, d, c);
    Childless(t, home, dp, k, d, dp);
    NamedAt(t, home, c);
    hide Shaped;
  }

  lemma RemoveEntered(t: Table, home: seq<Place>, dp: nat, k: nat, d: nat, p: nat, l: nat)
    requires Shaped(t, home) && Removing(t, home, dp, k, d) && p < |t| == |home|
    requires var x := Remove(t, dp, k, d)[p]; x.kind == Directory && 2 <= l < |x.entries| && x.entries[l].inum != 0
    ensures Entered(Remove(t, dp, k, d), home, p, l)
  {
    hide Shaped;
    Childless(t, home, dp, k, d, dp);
    EnteredAt(t, home, p, l);
  }

  lemma RemoveShaped(t: Table, home: seq<Place>, dp: nat, k: nat, d: nat)
    requires Shaped(t, home) && Removing(t, home, dp, k, d)
    ensures Shaped(Remove(t, dp, k, d), home)
  {
    var t' := Remove(t, dp, k, d);
    Childless(t, home, dp, k, d, dp);
    assert ROOT < |t'| == |home| && t'[0].kind == Unused && Linked(t'[ROOT]);
    hide Removing, Dots, Named, Entered, Remove;
    forall c | 0 <= c < |t'| && t'[c].kind == Directory
      ensures Dots(t', c)
    {
      RemoveDots(t, home, dp, k, d, c);
    }
    forall c | 0 <= c < |t'| && Linked(t'[c]) && c != ROOT
      ensures Named(t', home, c)
    {
      RemoveNamed(t, home, dp, k, d, c);
    }
    forall p, l | 0 <= p < |t'| && t'[p].kind == Directory && 2 <= l < |t'[p].entries| && t'[p].entries[l].inum != 0
      ensures Entered(t', home, p, l)
    {
      RemoveEntered(t, home, dp, k, d, p, l);
    }
  }

  lemma EmptyRefs(t: Table, home: seq<Place>, dp: nat, k: nat, d: nat, i: nat)
    requires Shaped(t, home) && CanRemove(t, home, dp, k, d) && i > 0
    ensures DirRefs(t[d], i) == if i == dp then 1 else 0
  {
    Childless(t, home, dp, k, d, d);
    OnlyEntry(t[d].entries, 1, i);
  }

  lemma RemoveCounted(t: Table, pending: seq<nat>, home: seq<Place>, dp: nat, k: nat, d: nat, i: nat)
    requires Shaped(t, home) && Conserved(t, pending) && Removing(t, home, dp, k, d) && 1 <= i < |t|
    ensures Counted(Remove(t, dp, k, d), pending, i)
  {
    var x := Dropped(WithEntry(t[dp], k, Empty));
    CountedAt(t, pending, i);
    Childless(t, home, dp, k, d, dp);
    EnteredAt(t, home, dp, k);
    EmptyRefs(t, home, dp, k, d, i);
    hide Shaped, Conserved;
    RefsSet(t, dp, x, i, |t|);
    RefsSet(t[dp := x], d, Dropped(t[d]), i, |t|);
    EntrySet(t[dp].entries, k, Empty, i);
  }

  /** Unlinking an empty directory: its name goes, its count reaches 0, and its ".." no longer counts for the parent. */
  lemma RemoveStep(t: Table, pending: seq<nat>, home: seq<Place>, dp: nat, k: nat, d: nat)
    requires Inv(t, pending, home) && CanRemove(t, home, dp, k, d)
    ensures Inv(Remove(t, dp, k, d), pending, home) && Remove(t, dp, k, d)[d].nlink == 0
  {
    EmptyHasOne(t, pending, home, dp, k, d);
    ParentHasTwo(t, pending, home, dp, k, d);
    var t' := Remove(t, dp, k, d);
    RemoveShaped(t, home, dp, k, d);
    Childless(t, home, dp, k, d, dp);
    hide Shaped, Counted;
    forall i | 1 <= i < |t'|
      ensures Counted(t', pending, i)
    {
      RemoveCounted(t, pending, home, dp, k, d, i);
    }
    forall i | 0 <= i < |t'|
      ensures Plain(t', pending, i)
    {
      PlainAt(t, pending, home, i);
    }
  }

  // ---------- Freeing an inode ----------

  lemma FreeShaped(t: Table, home: seq<Place>, i: nat)
    requires Shaped(t, home) && 0 < i < |t| && t[i].nlink == 0
    ensures Shaped(t[i := Cleared], home)
  {
    var t' := t[i := Cleared];
    forall d | 0 <= d < |t'| && Linked(t'[d]) && d != ROOT
      ensures Named(t', home, d)
    {
      NamedAt(t, home, d);
    }
    forall p, k | 0 <= p < |t'| && t'[p].kind == Directory && 2 <= k < |t'[p].entries| && t'[p].entries[k].inum != 0
      ensures Entered(t', home, p, k)
    {
      EnteredAt(t, home, p, k);
    }
  }

  /** The last reference to an inode without links goes: the inode is cleared. */
  lemma FreeStep(t: Table, pending: seq<nat>, home: seq<Place>, i: nat)
    requires Inv(t, pending, home) && 0 < i < |t| && t[i].nlink == 0
    ensures Inv(t[i := Cleared], pending, home)
  {
    FreeShaped(t, home, i);
    CountedAt(t, pending, i);
    SilentCounts(t, pending, i, Cleared, 0);
    assert pending[i := 0] == pending;
    var t' := t[i := Cleared];
    forall j | 0 <= j < |t'|
      ensures Plain(t', pending, j)
    {
      PlainAt(t, pending, home, j);
    }
    hide Shaped, Conserved;
  }

  // ---------- Names in directories that have none ----------

  lemma UnlinkedNotRoot(t: Table, home: seq<Place>, dp: nat)
    requires Shaped(t, home) && dp < |t| && t[dp].kind == Directory && t[dp].nlink == 0
    ensures dp != ROOT && Dots(t, dp) && t[dp].entries[1].inum != dp && 0 < dp
  {
  }

  /** Entering a file's name conserves the counts exactly when the directory is linked itself. */
  lemma EnterConservesIff(t: Table, pending: seq<nat>, home: seq<Place>, dp: nat, k: nat, e: Entry)
    requires Inv(t, pending, home) && dp < |t| && t[dp].kind == Directory && Vacant(t[dp], k)
    requires e.name != "." && e.name != ".." && 0 < e.inum < |t| && |t| == |pending|
    requires t[e.inum].kind != Directory && pending[e.inum] > 0
    ensures Conserved(Enter(t, dp, k, e), pending[e.inum := pending[e.inum] - 1]) <==> t[dp].nlink > 0
  {
    if t[dp].nlink > 0 {
      EnterStep(t, pending, home, dp, k, e);
    } else {
      var i := e.inum;
      CountedAt(t, pending, i);
      RefsSet(t, dp, WithEntry(t[dp], k, e), i, |t|);
      assert !Counted(Enter(t, dp, k, e), pending[i := pending[i] - 1], i);
    }
  }

  /** Making a directory conserves the counts exactly when its parent is linked. */
  lemma MakeConservesIff(t: Table, pending: seq<nat>, home: seq<Place>, dp: nat, k: nat, name: string, d: nat)
    requires Inv(t, pending, home) && dp < |t| && t[dp].kind == Directory && Vacant(t[dp], k) && k >= 2
    requires name != "." && name != ".." && 0 < d < |t| && t[d] == Cleared
    ensures Conserved(MakeDir(t, dp, k, name, d), pending) <==> t[dp].nlink > 0
  {
    if t[dp].nlink > 0 {
      MakeStep(t, pending, home, dp, k, name, d);
    } else {
      UnlinkedNotRoot(t, home, dp);
      var e, u, p := Entry(name, d), t[d := NewDir(d, dp)], t[dp].entries[1].inum;
      var x := WithEntry(Raised(t[dp]), k, e);
      CountedAt(t, pending, p);
      RefsSet(t, d, NewDir(d, dp), p, |t|);
      RefsSet(u, dp, x, p, |t|);
      DotRefs(d, dp, p);
      FillRefs(Raised(t[dp]), k, e, p);
      EntryAtLeast(t[dp].entries, 1, p);
      hide Shaped, Conserved, Refs;
      assert !Counted(MakeDir(t, dp, k, name, d), pending, p);
    }
  }

  // ---------- The first image ----------

  const RootDir: Inode := Inode(Directory, 1, [Entry(".", ROOT), Entry("..", ROOT)])

  /** A table of n inodes in which only the root is in use. */
  function Initial(n: nat): (r: Table)
    requires n > ROOT
  {
    seq(n, (i: nat) => if i == ROOT then RootDir else Cleared)
  }

  lemma InitialInv(n: nat)
    requires n > ROOT
    ensures Inv(Initial(n), seq(n, _ => 0), seq(n, _ => Place(0, 0)))
  {
    var t, pending, home := Initial(n), seq(n, _ => 0), seq(n, _ => Place(0, 0));
    assert RootDir == NewDir(ROOT, ROOT);
    forall i | 1 <= i < n
      ensures Counted(t, pending, i)
    {
      DotRefs(ROOT, ROOT, i);
      OnlyDir(t, ROOT, i, n);
    }
  }

  /** A run that leaves the counts wrong: a directory is made and removed while it is still in use, and then a
      directory is made in it. */
  lemma RemovedParentBreaks()
    ensures var t := Remove(MakeDir(Initial(4), ROOT, 2, "a", 2), ROOT, 2, 2);
      t[2].kind == Directory && t[2].nlink == 0 && !Conserved(MakeDir(t, 2, 2, "b", 3), [0, 0, 0, 0])
  {
    var pending, home := seq<nat>(4, _ => 0), seq(4, _ => Place(0, 0));
    assert pending == [0, 0, 0, 0];
    InitialInv(4);
    var made := MakeDir(Initial(4), ROOT, 2, "a", 2);
    MakeStep(Initial(4), pending, home, ROOT, 2, "a", 2);
    var home' := home[2 := Place(ROOT, 2)];
    hide Inv, Conserved;
    assert CanRemove(made, home', ROOT, 2, 2);
    RemoveStep(made, pending, home', ROOT, 2, 2);
    var t := Remove(made, ROOT, 2, 2);
    MakeConservesIff(t, pending, home', 2, 2, "b", 3);
  }
}
