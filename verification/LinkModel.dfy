/** Inodes, directory entries and link counts. */
module LinkModel {
  datatype Kind = Unused | Directory | File | Device

  /** A directory entry; inum 0 marks an empty one. */
  datatype Entry = Entry(name: string, inum: nat)

  datatype Inode = Inode(kind: Kind, nlink: nat, entries: seq<Entry>)

  /** The inode table, indexed by inode number. */
  type Table = seq<Inode>

  /** Where a directory has its name: the directory and slot that name it. */
  datatype Place = Place(dir: nat, slot: nat)

  const ROOT: nat := 1
  const Cleared: Inode := Inode(Unused, 0, [])

  // ---------- Counting references ----------

  predicate Linked(x: Inode)
  {
    x.kind == Directory && x.nlink > 0
  }

  /** Every name but "." counts. */
  function One(e: Entry, i: nat): (r: nat)
  {
    if e.inum == i && e.name != "." then 1 else 0
  }

  function EntryRefs(es: seq<Entry>, i: nat): (r: nat)
  {
    if es == [] then 0 else EntryRefs(es[..|es| - 1], i) + One(es[|es| - 1], i)
  }

  function DirRefs(x: Inode, i: nat): (r: nat)
  {
    if Linked(x) then EntryRefs(x.entries, i) else 0
  }

  /** Entries other than "." that name i, in the linked directories among the first n inodes. */
  function Refs(t: Table, i: nat, n: nat): (r: nat)
    requires n <= |t|
  {
    if n == 0 then 0 else Refs(t, i, n - 1) + DirRefs(t[n - 1], i)
  }

  lemma {:induction false} RefsSet(t: Table, d: nat, x: Inode, i: nat, n: nat)
    requires d < |t| && n <= |t|
    ensures Refs(t[d := x], i, n) == if d < n then Refs(t, i, n) - DirRefs(t[d], i) + DirRefs(x, i) else Refs(t, i, n)
  {
    if n > 0 {
      RefsSet(t, d, x, i, n - 1);
    }
  }

  lemma {:induction false} EntrySet(es: seq<Entry>, k: nat, e: Entry, i: nat)
    requires k < |es|
    ensures EntryRefs(es[k := e], i) == EntryRefs(es, i) - One(es[k], i) + One(e, i)
  {
    var n := |es| - 1;
    if k == n {
      assert es[k := e][..n] == es[..n];
    } else {
      assert es[k := e][..n] == es[..n][k := e];
      EntrySet(es[..n], k, e, i);
    }
  }

  lemma EntryPush(es: seq<Entry>, e: Entry, i: nat)
    ensures EntryRefs(es + [e], i) == EntryRefs(es, i) + One(e, i)
  {
    assert (es + [e])[..|es|] == es;
  }

  lemma {:induction false} EntryAtLeast(es: seq<Entry>, k: nat, i: nat)
    requires k < |es|
    ensures EntryRefs(es, i) >= One(es[k], i)
  {
    if k < |es| - 1 {
      EntryAtLeast(es[..|es| - 1], k, i);
    }
  }

  lemma {:induction false} OnlyEntry(es: seq<Entry>, k: nat, i: nat)
    requires forall l :: 0 <= l < |es| && l != k ==> One(es[l], i) == 0
    ensures EntryRefs(es, i) == if k < |es| then One(es[k], i) else 0
  {
    if es != [] {
      OnlyEntry(es[..|es| - 1], k, i);
    }
  }

  lemma {:induction false} OnlyDir(t: Table, d: nat, i: nat, n: nat)
    requires n <= |t| && forall q :: 0 <= q < n && q != d ==> DirRefs(t[q], i) == 0
    ensures Refs(t, i, n) == if d < n then DirRefs(t[d], i) else 0
  {
    if n > 0 {
      OnlyDir(t, d, i, n - 1);
    }
  }

  lemma {:induction false} DirAtLeast(t: Table, d: nat, i: nat, n: nat)
    requires d < n <= |t|
    ensures Refs(t, i, n) >= DirRefs(t[d], i)
  {
    if d < n - 1 {
      DirAtLeast(t, d, i, n - 1);
    }
  }

  lemma {:induction false} TwoDirs(t: Table, a: nat, b: nat, i: nat, n: nat)
    requires a < b < n <= |t|
    ensures Refs(t, i, n) >= DirRefs(t[a], i) + DirRefs(t[b], i)
  {
    if b < n - 1 {
      TwoDirs(t, a, b, i, n - 1);
    } else {
      DirAtLeast(t, a, i, n - 1);
    }
  }

  // ---------- The invariant ----------

  /** The first two entries of a directory are "." and ".."; only the root is its own parent. */
  predicate Dots(t: Table, d: nat)
    requires d < |t|
  {
    var es := t[d].entries;
    && |es| >= 2 && es[0] == Entry(".", d) && es[1].name == ".."
    && 1 <= es[1].inum < |t| && (es[1].inum == d <==> d == ROOT)
  }

  /** A linked directory other than the root has its name in its parent. */
  predicate Named(t: Table, home: seq<Place>, d: nat)
    requires d < |t| == |home| && Dots(t, d)
  {
    var p, k := home[d].dir, home[d].slot;
    p < |t| && Linked(t[p]) && 2 <= k < |t[p].entries| && t[p].entries[k].inum == d && t[d].entries[1].inum == p
  }

  /** An entry past the dots: it is in a linked directory, and if it names a directory it is that one's only name. */
  predicate Entered(t: Table, home: seq<Place>, p: nat, k: nat)
    requires p < |t| == |home| && k < |t[p].entries|
  {
    var e := t[p].entries[k];
    && Linked(t[p]) && e.name != "." && e.name != ".." && e.inum < |t|
    && (t[e.inum].kind == Directory ==> e.inum != ROOT && home[e.inum] == Place(p, k))
  }

  predicate Plain(t: Table, pending: seq<nat>, i: nat)
    requires i < |t| == |pending|
  {
    && (t[i].kind != Directory ==> t[i].entries == [])
    && (t[i].kind == Unused ==> t[i].nlink == 0)
    && (t[i].kind == Unused || t[i].kind == Directory ==> pending[i] == 0)
  }

  ghost predicate Shaped(t: Table, home: seq<Place>)
  {
    && ROOT < |t| == |home| && t[0].kind == Unused && Linked(t[ROOT])
    && (forall d :: 0 <= d < |t| && t[d].kind == Directory ==> Dots(t, d))
    && (forall d :: 0 <= d < |t| && Linked(t[d]) && d != ROOT ==> Named(t, home, d))
    && (forall p, k ::
          0 <= p < |t| && t[p].kind == Directory && 2 <= k < |t[p].entries| && t[p].entries[k].inum != 0 ==>
            Entered(t, home, p, k))
  }

  /** The link count is the number of references plus the links being made. */
  predicate Counted(t: Table, pending: seq<nat>, i: nat)
    requires i < |t| == |pending|
  {
    t[i].nlink == Refs(t, i, |t|) + pending[i]
  }

  ghost predicate Conserved(t: Table, pending: seq<nat>)
  {
    |t| == |pending| && forall i :: 1 <= i < |t| ==> Counted(t, pending, i)
  }

  ghost predicate Inv(t: Table, pending: seq<nat>, home: seq<Place>)
  {
    && Shaped(t, home) && Conserved(t, pending)
    && forall i :: 0 <= i < |t| ==> Plain(t, pending, i)
  }

  /** No link is half made: the count is exact. */
  predicate Quiet(pending: seq<nat>)
  {
    forall i :: 0 <= i < |pending| ==> pending[i] == 0
  }

  lemma DotsAt(t: Table, home: seq<Place>, d: nat)
    requires Shaped(t, home) && d < |t| && t[d].kind == Directory
    ensures Dots(t, d) && d > 0
  {
  }

  lemma EnteredAt(t: Table, home: seq<Place>, p: nat, k: nat)
    requires Shaped(t, home) && p < |t| && t[p].kind == Directory && 2 <= k < |t[p].entries|
    requires t[p].entries[k].inum != 0
    ensures Entered(t, home, p, k)
  {
  }

  lemma NamedAt(t: Table, home: seq<Place>, d: nat)
    requires Shaped(t, home) && d < |t| && Linked(t[d]) && d != ROOT
    ensures Dots(t, d) && Named(t, home, d)
  {
  }

  lemma CountedAt(t: Table, pending: seq<nat>, i: nat)
    requires Conserved(t, pending) && 1 <= i < |t|
    ensures Counted(t, pending, i)
  {
  }

  lemma PlainAt(t: Table, pending: seq<nat>, home: seq<Place>, i: nat)
    requires Inv(t, pending, home) && i < |t|
    ensures |t| == |pending| == |home| && Plain(t, pending, i)
  {
  }

  // ---------- Writing an entry ----------

  function WithEntry(x: Inode, k: nat, e: Entry): (r: Inode)
    requires k <= |x.entries|
    ensures r.kind == x.kind && r.nlink == x.nlink && k < |r.entries| && r.entries[k] == e
    ensures |r.entries| == if k < |x.entries| then |x.entries| else k + 1
    ensures forall l :: 0 <= l < |x.entries| && l != k ==> r.entries[l] == x.entries[l]
  {
    x.(entries := if k < |x.entries| then x.entries[k := e] else x.entries + [e])
  }

  /** A slot that dirlink may fill: an empty entry, or the end of the directory. */
  predicate Vacant(x: Inode, k: nat)
  {
    k <= |x.entries| && (k < |x.entries| ==> x.entries[k].inum == 0)
  }

  lemma FillRefs(x: Inode, k: nat, e: Entry, i: nat)
    requires Vacant(x, k) && i > 0
    ensures EntryRefs(WithEntry(x, k, e).entries, i) == EntryRefs(x.entries, i) + One(e, i)
  {
    if k < |x.entries| {
      EntrySet(x.entries, k, e, i);
    } else {
      EntryPush(x.entries, e, i);
    }
  }

  lemma VacantPastDots(t: Table, home: seq<Place>, d: nat, k: nat)
    requires Shaped(t, home) && d < |t| && t[d].kind == Directory && Vacant(t[d], k)
    ensures k >= 2
  {
    DotsAt(t, home, d);
  }
}
