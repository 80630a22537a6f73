/** The link-count protocol: link with its rollback, unlink, create, and the freeing of inodes without links. */
module Links {
  import opened LinkModel
  import opened LinkSteps
  import opened Options

  predicate Match(e: Entry, name: string)
  {
    e.inum != 0 && e.name == name
  }

  predicate Absent(x: Inode, name: string)
  {
    forall k :: 0 <= k < |x.entries| ==> !Match(x.entries[k], name)
  }

  /** t1 is t0 with a new inode d of the kind, named in slot k of p. */
  predicate Made(t0: Table, t1: Table, p: nat, k: nat, name: string, d: nat, kind: Kind)
  {
    && p < |t0| && 0 < d < |t0| && t0[d] == Cleared && Vacant(t0[p], k) && Absent(t0[p], name) && p != d
    && t1 == if kind == Directory then MakeDir(t0, p, k, name, d)
             else Enter(t0[d := Inode(kind, 1, [])], p, k, Entry(name, d))
  }

  /** The name is there and names i. */
  predicate Names(t: Table, p: nat, name: string, i: nat)
    requires p < |t|
  {
    i < |t| && exists k :: 0 <= k < |t[p].entries| && Match(t[p].entries[k], name) && t[p].entries[k].inum == i
  }

  predicate FullTable(t: Table)
  {
    forall i :: 1 <= i < |t| ==> t[i].kind != Unused
  }

  class Inodes {
    var t: Table
    ghost var pending: seq<nat>      // links begun and not yet ended, per inode
    ghost var home: seq<Place>

    ghost predicate Valid()
      reads this
    {
      Inv(t, pending, home)
    }

    /** The table mkfs starts from: the root directory, linked by its own "..". */
    constructor (n: nat)
      requires n > ROOT
      ensures Valid() && t == Initial(n) && Quiet(pending)
    {
      t, pending, home := Initial(n), seq(n, _ => 0), seq(n, _ => Place(0, 0));
      InitialInv(n);
    }

    method Dirlookup(dp: nat, name: string) returns (r: Option<nat>)
      requires dp < |t| && t[dp].kind == Directory
      ensures r.Some? ==> r.value < |t[dp].entries| && Match(t[dp].entries[r.value], name)
      ensures r.None? <==> Absent(t[dp], name)
    {
      var off := 0;
      while off < |t[dp].entries|
        invariant off <= |t[dp].entries|
        invariant forall k :: 0 <= k < off ==> !Match(t[dp].entries[k], name)
      {
        if t[dp].entries[off].inum != 0 && t[dp].entries[off].name == name {
          return Some(off);
        }
        off := off + 1;
      }
      r := None;
    }

    /** Fills the first vacant slot, unless the name is present. */
    method Dirlink(dp: nat, name: string, inum: nat) returns (ok: bool, ghost k: nat)
      requires dp < |t| && t[dp].kind == Directory
      modifies `t
      ensures ok <==> Absent(old(t[dp]), name)
      ensures !ok ==> t == old(t)
      ensures ok ==> Vacant(old(t[dp]), k) && t == Enter(old(t), dp, k, Entry(name, inum))
      ensures ok ==> forall l :: 0 <= l < k ==> old(t[dp]).entries[l].inum != 0
    {
      k := 0;
      var found := Dirlookup(dp, name);
      if found.Some? {
        return false, 0;
      }
      var off := 0;
      while off < |t[dp].entries| && t[dp].entries[off].inum != 0
        invariant off <= |t[dp].entries| && t == old(t)
        invariant forall l :: 0 <= l < off ==> t[dp].entries[l].inum != 0
      {
        off := off + 1;
      }
      t := t[dp := WithEntry(t[dp], off, Entry(name, inum))];
      ok, k := true, off;
    }

    method Isdirempty(dp: nat) returns (r: bool)
      requires dp < |t|
      ensures r <==> NoNames(t[dp])
    {
      var off := 2;
      while off < |t[dp].entries|
        invariant forall k :: 2 <= k < off && k < |t[dp].entries| ==> t[dp].entries[k].inum == 0
      {
        if t[dp].entries[off].inum != 0 {
          return false;
        }
        off := off + 1;
      }
      r := true;
    }

    // ---------- link ----------

    /** The first half of sys_link: the count rises before the name is written. */
    method BeginLink(ip: nat) returns (ok: bool)
      requires Valid() && 0 < ip < |t| && t[ip].kind != Unused
      modifies this
      ensures Valid() && home == old(home) && |pending| == |t| == |old(t)|
      ensures ok <==> old(t[ip]).kind != Directory
      ensures !ok ==> t == old(t) && pending == old(pending)
      ensures ok ==> t == old(t)[ip := Raised(old(t[ip]))]
      ensures ok ==> |old(pending)| == |t| && pending == old(pending)[ip := old(pending)[ip] + 1]
    {
      hide Inv, Shaped, Conserved;
      PlainAt(t, pending, home, ip);
      if t[ip].kind == Directory {
        return false;
      }
      PlainStep(t, pending, home, ip, Raised(t[ip]), pending[ip] + 1);
      t, pending := t[ip := Raised(t[ip])], pending[ip := pending[ip] + 1];
      ok := true;
    }

    /** The successful end of sys_link. One pending link less is then the truth, exactly if the directory is linked. */
    method EnterName(ip: nat, dp: nat, name: string) returns (ok: bool, ghost k: nat)
      requires Valid() && 0 < ip < |t| == |pending| && pending[ip] > 0 && dp < |t| && t[dp].kind == Directory
      modifies `t
      ensures ok <==> Absent(old(t[dp]), name)
      ensures !ok ==> t == old(t)
      ensures ok ==> Vacant(old(t[dp]), k) && t == Enter(old(t), dp, k, Entry(name, ip))
      ensures ok ==> (Inv(t, pending[ip := pending[ip] - 1], home) <==> old(t[dp]).nlink > 0)
    {
      hide Inv, Absent, Enter;
      ghost var t0 := t;
      PlainAt(t, pending, home, ip);
      DotsInv(t, pending, home, dp, name);
      ok, k := Dirlink(dp, name, ip);
      if ok {
        EnterInvIff(t0, pending, home, dp, k, Entry(name, ip));
      }
    }

    /** The failed end of sys_link: the count is taken back. */
    method RollBack(ip: nat)
      requires Valid() && 0 < ip < |t| == |pending| && pending[ip] > 0
      modifies this
      ensures Valid() && home == old(home) && pending == old(pending)[ip := old(pending)[ip] - 1]
      ensures old(t[ip]).nlink > 0 && t == old(t)[ip := Dropped(old(t[ip]))]
    {
      PlainAt(t, pending, home, ip);
      CountedAt(t, pending, ip);
      hide Inv, Shaped, Conserved;
      PlainStep(t, pending, home, ip, Dropped(t[ip]), pending[ip] - 1);
      t := t[ip := Dropped(t[ip])];
      pending := pending[ip := pending[ip] - 1];
    }

    /** The second half: the name is written, or the count is taken back. dp is what nameiparent found; other calls may
        have run since the first half. */
    method EndLink(ip: nat, dp: Option<nat>, name: string) returns (ok: bool, ghost k: nat)
      requires Valid() && 0 < ip < |t| == |pending| && pending[ip] > 0
      requires dp.Some? ==> dp.value < |t| && t[dp.value].kind == Directory
      modifies this
      ensures home == old(home) && |t| == |old(t)| && pending == old(pending)[ip := old(pending)[ip] - 1]
      ensures ok <==> dp.Some? && Absent(old(t[dp.value]), name)
      ensures Valid() <==> (ok ==> old(t[dp.value]).nlink > 0)
      ensures ok ==> Vacant(old(t[dp.value]), k) && t == Enter(old(t), dp.value, k, Entry(name, ip))
      ensures !ok ==> old(t[ip]).nlink > 0 && t == old(t)[ip := Dropped(old(t[ip]))]
    {
      hide Inv, Absent, Vacant, WithEntry;
      ok, k := false, 0;
      if dp.Some? {
        ok, k := EnterName(ip, dp.value, name);
      }
      if ok {
        pending := pending[ip := pending[ip] - 1];
      } else {
        RollBack(ip);
      }
    }

    /** sys_link with nothing in between: a failed link leaves the table as it was. A link made in a directory without
        links leaves the counts wrong. */
    method Link(ip: nat, dp: Option<nat>, name: string) returns (ok: bool, ghost k: nat)
      requires Valid() && 0 < ip < |t| && t[ip].kind != Unused
      requires dp.Some? ==> dp.value < |t| && t[dp.value].kind == Directory
      modifies this
      ensures pending == old(pending) && home == old(home)
      ensures ok <==> old(t[ip]).kind != Directory && dp.Some? && Absent(old(t[dp.value]), name)
      ensures Valid() <==> (ok ==> old(t[dp.value]).nlink > 0)
      ensures !ok ==> t == old(t)
      ensures ok ==> ip != dp.value && Vacant(old(t[dp.value]), k)
      ensures ok ==> t == Enter(old(t)[ip := Raised(old(t[ip]))], dp.value, k, Entry(name, ip))
    {
      hide Inv;
      k := 0;
      ok := BeginLink(ip);
      if ok {
        ok, k := EndLink(ip, dp, name);
      }
    }

    // ---------- unlink ----------

    /** sys_unlink: refused for "." and "..", for a missing name, and for a directory that is not empty. */
    method Unlink(dp: Option<nat>, name: string) returns (ok: bool, ghost k: nat, ghost ip: nat)
      requires Valid()
      requires dp.Some? ==> dp.value < |t| && t[dp.value].kind == Directory
      modifies `t
      ensures Valid() && |t| == |old(t)|
      ensures ok ==> dp.Some? && 2 <= k < |old(t[dp.value]).entries| && Match(old(t[dp.value]).entries[k], name)
      ensures ok ==> ip == old(t[dp.value]).entries[k].inum && ip < |t|
      ensures ok ==> old(t[ip]).nlink > 0 && old(t[dp.value]).nlink > 0
      ensures ok && old(t[ip]).kind != Directory ==>
        t == Enter(old(t), dp.value, k, Empty)[ip := Dropped(old(t[ip]))]
      ensures ok && old(t[ip]).kind == Directory ==>
        NoNames(old(t[ip])) && t == Remove(old(t), dp.value, k, ip) && t[ip].nlink == 0
      ensures !ok ==> t == old(t)
      ensures !ok && dp.Some? && name != "." && name != ".." && !Absent(t[dp.value], name) ==>
        exists i: nat :: Names(t, dp.value, name, i) && t[i].kind == Directory && !NoNames(t[i])
    {
      ok, k, ip := false, 0, 0;
      if dp == None || name == "." || name == ".." {
        return;
      }
      var d := dp.value;
      var off := Dirlookup(d, name);
      if off == None {
        return;
      }
      DotsAt(t, home, d);
      assert off.value >= 2;
      NameCounts(t, pending, home, d, off.value);
      hide Inv, Shaped, Conserved;
      var i := t[d].entries[off.value].inum;
      if t[i].kind == Directory {
        var empty := Isdirempty(i);
        if !empty {
          assert Names(t, d, name, i);
          return;
        }
        RemoveStep(t, pending, home, d, off.value, i);
        ChildNotParent(t, home, d, off.value, i);
        t := t[d := Dropped(WithEntry(t[d], off.value, Entry("", 0)))][i := Dropped(t[i])];
      } else {
        EraseStep(t, pending, home, d, off.value, i);
        t := t[d := WithEntry(t[d], off.value, Entry("", 0))][i := Dropped(t[i])];
      }
      ok, k, ip := true, off.value, i;
    }

    // ---------- create ----------

    /** ialloc: the first unused inode. None is the panic for a full table. */
    method Ialloc(kind: Kind) returns (r: Option<nat>)
      requires Valid() && kind != Unused
      modifies `t
      ensures r.None? ==> t == old(t) && FullTable(t)
      ensures r.Some? ==> 0 < r.value < |old(t)| && old(t[r.value]) == Cleared
      ensures r.Some? ==> forall j :: 1 <= j < r.value ==> old(t[j]).kind != Unused
      ensures r.Some? ==> t == old(t)[r.value := Inode(kind, 0, [])]
    {
      hide Inv;
      var i := 1;
      while i < |t|
        invariant i >= 1 && t == old(t)
        invariant forall j :: 1 <= j < i && j < |t| ==> t[j].kind != Unused
      {
        if t[i].kind == Unused {
          PlainAt(t, pending, home, i);
          t := t[i := Inode(kind, 0, [])];
          return Some(i);
        }
        i := i + 1;
      }
      r := None;
    }

    /** The writes of create after ialloc, for a file or device. */
    method NewFile(d: nat, dp: nat, name: string, kind: Kind) returns (ghost k: nat)
      requires d < |t| && dp < |t| && d != dp && t[d] == Inode(kind, 0, []) && t[dp].kind == Directory
      requires Absent(t[dp], name)
      modifies `t
      ensures Vacant(old(t[dp]), k) && t == Enter(old(t)[d := Inode(kind, 1, [])], dp, k, Entry(name, d))
    {
      t := t[d := t[d].(nlink := 1)];
      var ok;
      ok, k := Dirlink(dp, name, d);
    }

    /** Writes "." and ".." into a directory without entries. */
    method AddDots(d: nat, dp: nat)
      requires 0 < d < |t| && t[d].kind == Directory && t[d].entries == []
      modifies `t
      ensures t == old(t)[d := old(t[d]).(entries := [Entry(".", d), Entry("..", dp)])]
    {
      ghost var k;
      var ok;
      ok, k := Dirlink(d, ".", d);
      assert t[d].entries == [Entry(".", d)];
      ok, k := Dirlink(d, "..", dp);
      assert k == 1 && t[d].entries == [Entry(".", d), Entry("..", dp)];
    }

    /** The writes of create after ialloc, for a directory. */
    method NewDirectory(d: nat, dp: nat, name: string) returns (ghost k: nat)
      requires d < |t| && dp < |t| && d != dp && t[d] == Inode(Directory, 0, []) && t[dp].kind == Directory
      requires Absent(t[dp], name) && d > 0
      modifies `t
      ensures Vacant(old(t[dp]), k) && t == MakeDir(old(t), dp, k, name, d)
    {
      t := t[d := t[d].(nlink := 1)];
      t := t[dp := Raised(t[dp])];
      AddDots(d, dp);
      assert t[d] == NewDir(d, dp) && t[dp] == Raised(old(t[dp]));
      var ok;
      hide WithEntry, NewDir;
      ok, k := Dirlink(dp, name, d);
    }

    method FinishDirectory(ghost t0: Table, d: nat, p: nat, name: string) returns (ghost k: nat)
      requires Inv(t0, pending, home) && p < |t0| && t0[p].kind == Directory && Absent(t0[p], name)
      requires name != "." && name != ".." && 0 < d < |t0| && t0[d] == Cleared && t == t0[d := Inode(Directory, 0, [])]
      modifies `t
      ensures |home| == |t0| && Made(t0, t, p, k, name, d, Directory)
      ensures Inv(t, pending, home[d := Place(p, k)]) <==> t0[p].nlink > 0
    {
      hide Inv, Absent;
      k := NewDirectory(d, p, name);
      MadeDir(t0, t, pending, home, p, k, name, d);
    }

    method FinishFile(ghost t0: Table, d: nat, p: nat, name: string, kind: Kind) returns (ghost k: nat)
      requires Inv(t0, pending, home) && p < |t0| && t0[p].kind == Directory && Absent(t0[p], name)
      requires name != "." && name != ".." && 0 < d < |t0| && t0[d] == Cleared && (kind == File || kind == Device)
      requires t == t0[d := Inode(kind, 0, [])]
      modifies `t
      ensures Made(t0, t, p, k, name, d, kind) && (Inv(t, pending, home) <==> t0[p].nlink > 0)
    {
      hide Inv, Absent;
      k := NewFile(d, p, name, kind);
      MadeFile(t0, t, pending, home, p, k, name, d, kind);
    }

    /** The creating part of create. It keeps the counts exact exactly when the directory is linked. */
    method CreateNew(p: nat, name: string, kind: Kind) returns (r: Option<nat>, ghost k: nat)
      requires Valid() && kind != Unused && p < |t| && t[p].kind == Directory && Absent(t[p], name)
      requires name != "." && name != ".."
      modifies this
      ensures pending == old(pending)
      ensures r.Some? ==> Made(old(t), t, p, k, name, r.value, kind) && (Valid() <==> old(t[p]).nlink > 0)
      ensures r.None? ==> t == old(t) && FullTable(t) && Valid()
    {
      hide Inv, FullTable, Made, Absent;
      k := 0;
      ghost var t0 := t;
      r := Ialloc(kind);
      if r.Some? {
        if kind == Directory {
          k := FinishDirectory(t0, r.value, p, name);
          home := home[r.value := Place(p, k)];
        } else {
          k := FinishFile(t0, r.value, p, name, kind);
        }
      }
    }

    /** create in the directory nameiparent found: a name that exists is only looked at, a new one gets a new inode.
        full is the panic of ialloc. A name made in a directory without links leaves the counts wrong. */
    method Create(dp: Option<nat>, name: string, kind: Kind) returns (r: Option<nat>, full: bool, ghost k: nat)
      requires Valid() && kind != Unused
      requires dp.Some? ==> dp.value < |t| && t[dp.value].kind == Directory
      modifies this
      ensures pending == old(pending)
      ensures Valid() <==> (dp.Some? && Absent(old(t[dp.value]), name) && !full ==> old(t[dp.value]).nlink > 0)
      ensures dp.None? ==> r.None? && !full && t == old(t)
      ensures dp.Some? && Absent(old(t[dp.value]), name) && !full ==>
        r.Some? && Made(old(t), t, dp.value, k, name, r.value, kind)
      ensures dp.Some? && !Absent(old(t[dp.value]), name) ==> !full && t == old(t)
      ensures dp.Some? && !Absent(old(t[dp.value]), name) ==>
        exists i: nat :: Names(t, dp.value, name, i) && r == if kind == File && t[i].kind == File then Some(i) else None
      ensures full ==> r.None? && t == old(t) && FullTable(t)
    {
      r, full, k := None, false, 0;
      if dp == None {
        return;
      }
      var p := dp.value;
      DotsFacts(t, home, p, name);
      var off := Dirlookup(p, name);
      if off.Some? {
        EntryInRange(t, home, p, off.value);
        hide Inv, Shaped, Conserved;
        var ip := t[p].entries[off.value].inum;
        assert Names(t, p, name, ip);
        r := if kind == File && t[ip].kind == File then Some(ip) else None;
        return;
      }
      hide Inv, Shaped, Conserved, Made, FullTable;
      r, k := CreateNew(p, name, kind);
      full := r == None;
    }

    /** iput by a holder of one of `ref` references. */
    method Iput(ip: nat, ref: nat)
      requires Valid() && 0 < ip < |t| && 0 < ref
      modifies `t
      ensures Valid()
      ensures t == if old(t[ip]).nlink == 0 && ref == 1 then old(t)[ip := Cleared] else old(t)
    {
      if t[ip].nlink == 0 {
        if ref == 1 {
          FreeStep(t, pending, home, ip);
          hide Inv;
          t := t[ip := Inode(Unused, 0, [])];
        }
      }
    }
  }

  lemma DotsFacts(t: Table, home: seq<Place>, d: nat, name: string)
    requires Shaped(t, home) && d < |t| && t[d].kind == Directory
    ensures Absent(t[d], name) ==> name != "." && name != ".."
  {
    DotsAt(t, home, d);
    assert Match(t[d].entries[0], ".") && Match(t[d].entries[1], "..");
  }

  lemma DotsInv(t: Table, pending: seq<nat>, home: seq<Place>, d: nat, name: string)
    requires Inv(t, pending, home) && d < |t| && t[d].kind == Directory
    ensures Absent(t[d], name) ==> name != "." && name != ".."
  {
    hide Shaped, Conserved, Absent;
    DotsFacts(t, home, d, name);
  }

  lemma EntryInRange(t: Table, home: seq<Place>, d: nat, k: nat)
    requires Shaped(t, home) && d < |t| && t[d].kind == Directory && k < |t[d].entries| && t[d].entries[k].inum != 0
    ensures t[d].entries[k].inum < |t|
  {
    DotsAt(t, home, d);
    if k >= 2 {
      EnteredAt(t, home, d, k);
    }
  }

  /** Entering a name keeps the whole invariant exactly when the directory is linked. */
  lemma EnterInvIff(t: Table, pending: seq<nat>, home: seq<Place>, dp: nat, k: nat, e: Entry)
    requires Inv(t, pending, home) && dp < |t| && t[dp].kind == Directory && Vacant(t[dp], k)
    requires e.name != "." && e.name != ".." && 0 < e.inum < |t| && |t| == |pending|
    requires t[e.inum].kind != Directory && pending[e.inum] > 0
    ensures Inv(Enter(t, dp, k, e), pending[e.inum := pending[e.inum] - 1], home) <==> t[dp].nlink > 0
  {
    EnterConservesIff(t, pending, home, dp, k, e);
    if t[dp].nlink > 0 {
      EnterStep(t, pending, home, dp, k, e);
    }
    hide Shaped, Conserved, Enter;
  }

  lemma MadeDir(t0: Table, t1: Table, pending: seq<nat>, home: seq<Place>, p: nat, k: nat, name: string, d: nat)
    requires Inv(t0, pending, home) && p < |t0| && t0[p].kind == Directory && name != "." && name != ".."
    requires 0 < d < |t0|
    requires t0[d] == Cleared && Vacant(t0[p], k) && d != p && Absent(t0[p], name)
    requires t1 == MakeDir(t0[d := Inode(Directory, 0, [])], p, k, name, d)
    ensures |home| == |t0| && Made(t0, t1, p, k, name, d, Directory)
    ensures Inv(t1, pending, home[d := Place(p, k)]) <==> t0[p].nlink > 0
  {
    VacantPastDots(t0, home, p, k);
    assert t1 == MakeDir(t0, p, k, name, d);
    MakeConservesIff(t0, pending, home, p, k, name, d);
    if t0[p].nlink > 0 {
      MakeStep(t0, pending, home, p, k, name, d);
    }
    hide Shaped, Conserved, MakeDir;
  }

  lemma MadeFile(t0: Table, t1: Table, pending: seq<nat>, home: seq<Place>, p: nat, k: nat, name: string, d: nat,
                 kind: Kind)
    requires Inv(t0, pending, home) && p < |t0| && t0[p].kind == Directory && name != "." && name != ".."
    requires 0 < d < |t0|
    requires t0[d] == Cleared && Vacant(t0[p], k) && d != p && Absent(t0[p], name) && (kind == File || kind == Device)
    requires t1 == Enter(t0[d := Inode(kind, 0, [])][d := Inode(kind, 1, [])], p, k, Entry(name, d))
    ensures Made(t0, t1, p, k, name, d, kind) && (Inv(t1, pending, home) <==> t0[p].nlink > 0)
  {
    var x := Inode(kind, 1, []);
    assert t0[d := Inode(kind, 0, [])][d := x] == t0[d := x];
    PlainAt(t0, pending, home, d);
    CountedAt(t0, pending, d);
    hide Shaped, Conserved, Inv, Enter;
    PlainStep(t0, pending, home, d, x, 1);
    assert pending[d := 1][d := 0] == pending;
    EnterInvIff(t0[d := x], pending[d := 1], home, p, k, Entry(name, d));
  }

  lemma ChildNotParent(t: Table, home: seq<Place>, dp: nat, k: nat, d: nat)
    requires Shaped(t, home) && CanRemove(t, home, dp, k, d)
    ensures d != dp
  {
    Childless(t, home, dp, k, d, dp);
  }

  /** With no link half made, each inode's count is the number of entries other than "." that name it in linked
      directories; every such entry names an inode in use; and an inode without links has no name left. */
  lemma ExactCounts(t: Table, pending: seq<nat>, home: seq<Place>)
    requires Inv(t, pending, home) && Quiet(pending)
    ensures forall i :: 1 <= i < |t| ==> t[i].nlink == Refs(t, i, |t|)
    ensures forall d, k ::
      0 <= d < |t| && t[d].kind == Directory && 2 <= k < |t[d].entries| && t[d].entries[k].inum != 0 ==>
      t[d].entries[k].inum < |t| && t[t[d].entries[k].inum].kind != Unused && t[t[d].entries[k].inum].nlink > 0
  {
    forall i | 1 <= i < |t|
      ensures t[i].nlink == Refs(t, i, |t|)
    {
      CountedAt(t, pending, i);
    }
    forall d, k | 0 <= d < |t| && t[d].kind == Directory && 2 <= k < |t[d].entries| && t[d].entries[k].inum != 0
      ensures t[d].entries[k].inum < |t| && t[t[d].entries[k].inum].kind != Unused && t[t[d].entries[k].inum].nlink > 0
    {
      NameCounts(t, pending, home, d, k);
    }
  }
}
