/** mkfs: the image the kernel starts from. Blocks are handed out in order, inodes go straight to the table on disk, and
    the bitmap is written last. */
module Mkfs {
  import opened Blocks
  import opened Bitmap
  import opened Dinode
  import opened FsModel
  import opened Fs
  import opened MkfsModel
  import opened Params

  /** The log comes right after the superblock, then the inode table. */
  predicate Layout(sb: Super)
  {
    Geometry(sb) && sb.inodestart == 2 + LOGSIZE
  }

  class Image {
    const sb: Super
    var blocks: seq<Block>
    var freeblock: nat
    var freeinode: nat
    ghost var inodes: Inodes          // what winode has been given
    ghost var owner: Owners

    ghost predicate Base()
      reads this
    {
      Layout(sb) && |blocks| == sb.size && sb.datastart <= freeblock <= sb.size && 0 < freeinode
    }

    /** The inode table has not grown into the data blocks, and is up to date but for inode i. */
    ghost predicate Filling(i: nat, limit: nat)
      reads this
    {
      Base() && Filled(sb, blocks, inodes, owner, freeblock, freeinode, i, limit)
    }

    ghost predicate Valid()
      reads this
    {
      Filling(0, 0)
    }

    /** All sectors zero, the superblock in sector 1. */
    constructor (sb: Super, super: Block)
      requires Layout(sb)
      ensures Valid() && this.sb == sb && inodes == map[] && freeblock == sb.datastart && freeinode == 1
    {
      this.sb := sb;
      blocks := seq<Block>(sb.size, (k: nat) => Sector(k, super));
      inodes, freeblock, freeinode, owner := map[], sb.datastart, 1, map[];
    }

    /** rinode; false is the failed read of a sector behind the image. */
    method Rinode(inum: nat) returns (ok: bool, din: Inode)
      requires Base()
      ensures ok <==> TableBlock(sb, inum) < sb.size
      ensures FieldsFit(din) && (ok ==> OnDisk(sb, blocks, inum, din))
    {
      din := Inode(0, 0, 0, NoAddrs());
      ok := TableBlock(sb, inum) < |blocks|;
      if ok {
        din := GetInode(blocks[TableBlock(sb, inum)], inum % IPB);
      }
    }

    /** winode: this inode of the table, and no other, becomes din. */
    method Winode(inum: nat, din: Inode, ghost good: bool, ghost limit: nat) returns (ok: bool)
      requires Base() && FieldsFit(din)
      requires good ==> inum in inodes && inodes[inum] == din && Filling(inum, limit)
      modifies this`blocks
      ensures Base() && (ok <==> TableBlock(sb, inum) < sb.size)
      ensures ok ==> OnDisk(sb, blocks, inum, din)
      ensures forall j, jp :: j != inum && OnDisk(sb, old(blocks), j, jp) ==> OnDisk(sb, blocks, j, jp)
      ensures good ==>
        && ok && Filling(inum, limit) && SameBytes(old(blocks), inodes, blocks, inodes)
        && SameSlots(old(blocks), blocks, inodes)
    {
      hide PutInode, OnDisk, Filled, SameBytes, SameSlots;
      var bn := TableBlock(sb, inum);
      ok := bn < |blocks|;
      if good {
        StoreFilled(sb, blocks, inodes, owner, freeblock, freeinode, inum, limit);
      }
      if ok {
        TableStore(sb, blocks, inum, din);
        blocks := blocks[bn := PutInode(blocks[bn], inum % IPB, din)];
      }
    }

    /** ialloc: the next inode number, with one link and no blocks. The inode is on disk, and everything else as it was,
        as long as its place is not among the data blocks. */
    method Ialloc(kind: nat) returns (ok: bool, inum: nat)
      requires Base() && kind < SHORT_LIMIT
      modifies this`blocks, this`inodes, this`freeinode
      ensures Base() && inum == old(freeinode) && freeinode == inum + 1
      ensures ok <==> TableBlock(sb, inum) < sb.size
      ensures ok ==> OnDisk(sb, blocks, inum, Inode(kind, 1, 0, NoAddrs()))
      ensures old(Valid()) && inum < TableEnd(sb) ==>
        && ok && Valid() && inum !in old(inodes) && inodes == old(inodes)[inum := Inode(kind, 1, 0, NoAddrs())]
        && Keeps(old(blocks), old(inodes), blocks, inodes, {})
    {
      hide OnDisk, Filled, Exact, SameBytes, SameSlots, Keeps;
      var din := Inode(kind, 1, 0, NoAddrs());
      inum := freeinode;
      freeinode := freeinode + 1;
      ghost var b0, n0, good := blocks, inodes, old(Valid()) && inum < TableEnd(sb);
      if good {
        NewFilled(sb, blocks, inodes, owner, freeblock, inum, din);
      }
      inodes := inodes[inum := din];
      ok := Winode(inum, din, good, 0);
      if good {
        ExactSlots(b0, blocks, inodes, inum);
        EndFilled(sb, blocks, inodes, owner, freeblock, freeinode, inum, 0);
        KeepsNew(b0, n0, blocks, inodes, inum, din);
      }
    }

    /** The next free block for an address slot of din that is still empty; false when none is left, so that the read
        of it fails. */
    method FillSlot(inum: nat, din: Inode, s: nat, ghost good: bool) returns (ok: bool, r: Inode)
      requires Base() && FieldsFit(din) && s <= NDIRECT
      requires good ==> Building(sb, blocks, inodes, owner, freeblock) && inum in inodes && inodes[inum] == din
      modifies this`inodes, this`owner, this`freeblock
      ensures Base() && FieldsFit(r) && r == din.(addrs := r.addrs)
      ensures ok ==> r.addrs[s] != 0
      ensures !ok ==> freeblock == old(freeblock) == sb.size && r == din
      ensures ok && good ==>
        && Building(sb, blocks, inodes, owner, freeblock) && inum in inodes && inodes[inum] == r
        && SlotsBut(blocks, old(inodes), blocks, inodes, inum, s)
        && SameBytes(blocks, old(inodes), blocks, inodes) && Grew(blocks, old(inodes), blocks, inodes, inum)
      ensures freeblock + Missing(r) <= old(freeblock) + (if s < NDIRECT then 1 else 0) + Missing(din)
    {
      hide Building, SameBytes, Grew, SlotsBut;
      if good {
        BuildingFacts(sb, blocks, inodes, owner, freeblock);
        StartsSame(blocks, inodes, inum);
        SlotsButSelf(blocks, inodes, inum, s);
      }
      r := din;
      if din.addrs[s] == 0 {
        if freeblock == sb.size {
          return false, r;
        }
        r := din.(addrs := din.addrs[s := freeblock]);
        if good {
          TakeDirect(sb, blocks, inodes, owner, freeblock, inum, s);
          inodes := WithAddr(inodes, inum, s, freeblock);
          owner := owner[freeblock := Place(inum, s)];
        }
        freeblock := freeblock + 1;
      }
      ok := true;
    }

    /** The next free block for an indirect entry that is still empty. */
    method FillEntry(inum: nat, din: Inode, e: nat, ghost good: bool) returns (ok: bool, x: nat)
      requires Base() && FieldsFit(din) && e < NINDIRECT && din.addrs[NDIRECT] != 0
      requires good ==> Building(sb, blocks, inodes, owner, freeblock) && inum in inodes && inodes[inum] == din
      modifies this`blocks, this`owner, this`freeblock
      ensures ok ==> Base() && x != 0 && freeblock <= old(freeblock) + 1
      ensures ok && good ==>
        && Building(sb, blocks, inodes, owner, freeblock) && Slot(blocks, inodes[inum], FileSlot(NDIRECT + e)) == x
        && SlotsBut(old(blocks), inodes, blocks, inodes, inum, FileSlot(NDIRECT + e))
        && SameMeta(sb, old(blocks), blocks)
        && SameBytes(old(blocks), inodes, blocks, inodes) && Grew(old(blocks), inodes, blocks, inodes, inum)
      ensures !ok && good ==> freeblock == old(freeblock) == sb.size
    {
      hide Building, SameBytes, Grew, Slot, SlotsBut, GetWord, PutWord;
      x := 0;
      if good {
        BuildingFacts(sb, blocks, inodes, owner, freeblock);
        StartsSame(blocks, inodes, inum);
        SlotsButSelf(blocks, inodes, inum, FileSlot(NDIRECT + e));
        IndirectIn(sb, blocks, inodes, owner, freeblock, inum);
      }
      var indirect := din.addrs[NDIRECT];
      if indirect >= |blocks| {
        return false, x;
      }
      if GetWord(blocks[indirect], e) == 0 {
        if good {
          SlotEquals(blocks, inodes[inum], NDIRECT + e);
          if freeblock < sb.size {
            TakeEntry(sb, blocks, inodes, owner, freeblock, inum, FileSlot(NDIRECT + e));
          }
        }
        GetPutWord(blocks[indirect], e, freeblock, e);
        blocks := blocks[indirect := PutWord(blocks[indirect], e, freeblock)];
        if freeblock == sb.size {
          return false, x;
        }
        owner := owner[freeblock := Place(inum, FileSlot(NDIRECT + e))];
        freeblock := freeblock + 1;
      }
      ok, x := true, GetWord(blocks[indirect], e);
      if good {
        SlotEquals(blocks, inodes[inum], NDIRECT + e);
      }
    }

    /** The block for file block fbn of the inode being filled, taken in order if there is none. */
    method BlockFor(inum: nat, din: Inode, fbn: nat, ghost good: bool) returns (ok: bool, r: Inode, x: nat)
      requires Base() && FieldsFit(din) && fbn < MAXFILE
      requires good ==> Building(sb, blocks, inodes, owner, freeblock) && inum in inodes && inodes[inum] == din
      modifies this`blocks, this`inodes, this`owner, this`freeblock
      ensures ok ==> Base() && FieldsFit(r) && r == din.(addrs := r.addrs) && x != 0
      ensures ok ==> freeblock + Missing(r) <= old(freeblock) + 1 + Missing(din)
      ensures ok && good ==>
        && Building(sb, blocks, inodes, owner, freeblock) && inum in inodes && inodes[inum] == r
        && Slot(blocks, r, FileSlot(fbn)) == x && SameMeta(sb, old(blocks), blocks)
        && SlotsBut(old(blocks), old(inodes), blocks, inodes, inum, FileSlot(fbn))
        && SameBytes(old(blocks), old(inodes), blocks, inodes)
        && Grew(old(blocks), old(inodes), blocks, inodes, inum)
      ensures !ok && good ==> freeblock == sb.size < old(freeblock) + 1 + Missing(din)
    {
      hide Building, Slot, SameBytes, Grew, SlotsBut;
      ghost var b0, n0 := blocks, inodes;
      x := 0;
      if fbn < NDIRECT {
        ok, r := FillSlot(inum, din, fbn, good);
        if !ok {
          return;
        }
        x := r.addrs[fbn];
        if good {
          SlotEquals(blocks, inodes[inum], fbn);
        }
      } else {
        ok, r := FillSlot(inum, din, NDIRECT, good);
        if !ok {
          return;
        }
        ghost var b1, n1 := blocks, inodes;
        ok, x := FillEntry(inum, r, fbn - NDIRECT, good);
        if ok && good {
          SlotsButTrans(b0, n0, b1, n1, blocks, inodes, inum, FileSlot(fbn));
          SameBytesTrans(b0, n0, b1, n1, blocks, inodes);
          GrewTrans(b0, n0, b1, n1, blocks, inodes, inum);
        }
      }
    }

    /** One round of iappend's loop; false when the file gets too large or a sector behind the image is read. */
    method AppendChunk(inum: nat, din: Inode, data: seq<Byte>, off: nat, tot: nat, ghost w: WriteLog, ghost good: bool)
      returns (ok: bool, r: Inode, m: nat)
      requires Base() && FieldsFit(din) && tot < |data|
      requires good ==>
        && Filling(inum, off + tot) && inum in inodes && inodes[inum] == din
        && WriteInv(w, blocks, inodes, inum, off, data, tot) && (tot == 0 || (off + tot) % BSIZE == 0)
      modifies this`blocks, this`inodes, this`owner, this`freeblock
      ensures ok ==> Base() && FieldsFit(r) && r == din.(addrs := r.addrs) && (off + tot) / BSIZE < MAXFILE
      ensures ok ==> m == Min(|data| - tot, BSIZE - (off + tot) % BSIZE) && 0 < m && tot + m <= |data|
      ensures ok ==> freeblock + Missing(r) <= old(freeblock) + 1 + Missing(din)
      ensures ok && good ==>
        && Filling(inum, off + tot + m) && inum in inodes && inodes[inum] == r
        && WriteInv(w, blocks, inodes, inum, off, data, tot + m)
      ensures !ok && good ==>
        (off + tot) / BSIZE >= MAXFILE || freeblock == sb.size < old(freeblock) + 1 + Missing(din)
    {
      hide Building, Slot, SameBytes, Grew, WriteInv, Tight, SlotsBut, Clear, SyncedBut;
      r, m := din, 0;
      var at := off + tot;
      if at / BSIZE >= MAXFILE {
        return false, r, m;
      }
      ghost var b1, n1 := blocks, inodes;
      var x;
      ok, r, x := BlockFor(inum, din, at / BSIZE, good);
      if !ok {
        return;
      }
      if good {
        ChunkFacts(sb, w, b1, n1, blocks, inodes, owner, freeblock, inum, off, data, tot);
      }
      if x >= |blocks| {
        return false, r, m;
      }
      m := Min(|data| - tot, BSIZE - at % BSIZE);
      var buf := blocks[x];
      buf := buf[..at % BSIZE] + data[tot..tot + m] + buf[at % BSIZE + m..];
      if good {
        ChunkFilled(sb, w, b1, n1, blocks, inodes, owner, freeblock, freeinode, inum, off, data, tot, m, x, buf);
      }
      blocks := blocks[x := buf];
    }

    /** The loop of iappend, on the copy of the inode that it has read. */
    method AppendLoop(inum: nat, din: Inode, data: seq<Byte>, ghost w: WriteLog, ghost good: bool)
      returns (ok: bool, r: Inode)
      requires Base() && FieldsFit(din)
      requires good ==>
        && Filling(inum, din.size) && inum in inodes && inodes[inum] == din
        && WriteInv(w, blocks, inodes, inum, din.size, data, 0)
      modifies this`blocks, this`inodes, this`owner, this`freeblock
      ensures ok ==> Base() && FieldsFit(r) && r.size == din.size && (data == [] || r.size + |data| <= MAXFILE * BSIZE)
      ensures ok && good ==>
        && Filling(inum, din.size + |data|) && inum in inodes && inodes[inum] == r
        && WriteInv(w, blocks, inodes, inum, din.size, data, |data|)
        && freeblock <= old(freeblock) + Touched(din.size, |data|) + 1
      ensures !ok && good ==>
        || din.size + |data| > MAXFILE * BSIZE
        || freeblock == sb.size < old(freeblock) + Touched(din.size, |data|) + 1
    {
      hide Filled, WriteInv, Touched;
      var off, tot := din.size, 0;
      ok, r := true, din;
      TouchedNone(off);
      while tot < |data|
        invariant Base() && FieldsFit(r) && tot <= |data| && (tot == 0 || off + tot <= MAXFILE * BSIZE)
        invariant ok && r.size == off && (tot == |data| || tot == 0 || (off + tot) % BSIZE == 0)
        invariant good ==>
          && Filling(inum, off + tot) && inum in inodes && inodes[inum] == r
          && WriteInv(w, blocks, inodes, inum, off, data, tot)
          && freeblock + Missing(r) <= old(freeblock) + Missing(din) + Touched(off, tot)
        decreases |data| - tot
      {
        ghost var step := Min(|data| - tot, BSIZE - (off + tot) % BSIZE);
        TouchedMore(off, tot, step);
        TouchedGrows(off, tot + step, |data|);
        var m;
        ok, r, m := AppendChunk(inum, r, data, off, tot, w, good);
        if !ok {
          return;
        }
        tot := tot + m;
      }
    }

    /** iappend: the data goes to the end of the file, without a hole. It fails only when the file gets too large or
        the image has no block left. */
    method Iappend(inum: nat, data: seq<Byte>) returns (ok: bool)
      requires Base()
      modifies this`blocks, this`inodes, this`owner, this`freeblock
      ensures ok ==> Base()
      ensures ok && old(Valid()) && inum in old(inodes) ==>
        && Valid() && Appended(old(blocks), old(inodes), blocks, inodes, inum, data)
        && Keeps(old(blocks), old(inodes), blocks, inodes, {inum})
        && freeblock <= old(freeblock) + Touched(old(inodes)[inum].size, |data|) + 1
      ensures !ok && old(Valid()) && inum in old(inodes) ==>
        || old(inodes)[inum].size + |data| > MAXFILE * BSIZE
        || freeblock == sb.size < old(freeblock) + Touched(old(inodes)[inum].size, |data|) + 1
    {
      hide Filled, WriteInv, Touched, Exact, OnDisk, Appended, Keeps, SameBytes, SameSlots;
      var din;
      ok, din := Rinode(inum);
      ghost var good := Valid() && inum in inodes;
      ghost var w := WriteLog(blocks, inodes, inum, {}, Cost({}, {}, 0, false));
      if good {
        FirstRead(sb, blocks, inodes, owner, freeblock, freeinode, inum, din, data, w);
      }
      if !ok {
        return;
      }
      ok, din := AppendLoop(inum, din, data, w, good);
      if !ok {
        return;
      }
      ghost var b1, n1, off := blocks, inodes, din.size;
      din := din.(size := din.size + |data|);
      if good {
        AppendReady(sb, blocks, inodes, owner, freeblock, freeinode, inum, off, data, w);
        inodes := inodes[inum := din];
      }
      ok := Winode(inum, din, good, off + |data|);
      if good {
        AppendDone(sb, w, b1, n1, blocks, inodes, owner, freeblock, freeinode, inum, off, data);
      }
    }

    /** The root directory's size is rounded up; nobody's blocks change. */
    method RoundRoot(root: nat) returns (ok: bool)
      requires Base()
      modifies this`blocks, this`inodes
      ensures Base()
      ensures old(Valid()) && root in old(inodes) && old(inodes)[root].size / BSIZE < MAXFILE ==>
        && ok && Filling(root, old(inodes)[root].size) && inodes == old(inodes)[root := Rounded(old(inodes)[root])]
        && OnDisk(sb, blocks, root, inodes[root]) && Sized(old(inodes)[root])
        && (NoHoles(blocks, inodes[root]) <==> old(inodes)[root].size % BSIZE != 0)
        && Keeps(old(blocks), old(inodes), blocks, inodes, {root})
        && Contents(old(blocks), old(inodes)[root]) <= Contents(blocks, inodes[root])
    {
      hide Filled, Contents, NoHoles, Exact, OnDisk, Keeps, SameBytes, SameSlots;
      var din;
      ok, din := Rinode(root);
      ghost var b0, n0 := blocks, inodes;
      ghost var good := Valid() && root in inodes && inodes[root].size / BSIZE < MAXFILE;
      if good {
        RootRead(sb, blocks, inodes, owner, freeblock, freeinode, root, din);
      }
      if !ok {
        return;
      }
      var off := din.size;
      off := (off / BSIZE + 1) * BSIZE % UINT_LIMIT;
      din := din.(size := off);
      if good {
        inodes := inodes[root := din];
      }
      ok := Winode(root, din, good, if root in n0 then n0[root].size else 0);
      if good {
        RootDone(b0, n0, blocks, inodes, root);
      }
    }

    /** balloc: the bitmap of the blocks handed out. If the inode table has not grown into it, the kernel finds a
        consistent file system with every inode in its place; but any inode whose place was at the start of the bitmap
        is destroyed. */
    method Balloc(ghost root: nat, ghost limit: nat) returns (ok: bool)
      requires Base()
      modifies this`blocks
      ensures Base() && (ok <==> freeblock < BPB)
      ensures ok ==> GetInode(blocks[sb.bmapstart], 0).kind == SHORT_LIMIT - 1
      ensures ok && old(Finished(root, limit)) && freeinode <= TableLimit(sb) ==>
        && Consistent(sb, blocks, inodes, owner) && Synced(sb, blocks, inodes)
        && SameBytes(old(blocks), inodes, blocks, inodes) && SameSlots(old(blocks), blocks, inodes)
        && forall b: nat :: b < sb.inodestart && b != 1 ==> blocks[b] == ZeroBlock()
    {
      if freeblock >= BPB {
        return false;
      }
      var buf := ZeroBlock();
      ZeroBits(0);
      for i := 0 to freeblock
        invariant FirstBits(buf, i)
      {
        buf := SetBit(buf, i);
      }
      MapIsNoInode(buf, freeblock);
      hide Filled, FirstBits, GetInode, Consistent, Synced, SameBytes, SameSlots;
      if Finished(root, limit) && freeinode <= TableLimit(sb) {
        MapFinishes(sb, blocks, inodes, owner, freeblock, freeinode, root, limit, buf);
      }
      blocks := blocks[sb.bmapstart := buf];
      ok := true;
    }

    /** Every inode is on disk; only the root may have a hole. */
    ghost predicate Finished(root: nat, limit: nat)
      reads this
    {
      Filling(root, limit) && (root in inodes ==> OnDisk(sb, blocks, root, inodes[root]))
    }
  }

  /** The file has grown by the data and is otherwise the same. */
  ghost predicate Appended(b0: seq<Block>, n0: Inodes, b1: seq<Block>, n1: Inodes, i: nat, data: seq<Byte>)
  {
    && i in n0 && n1.Keys == n0.Keys && Sized(n0[i]) && Sized(n1[i])
    && n1[i].kind == n0[i].kind && n1[i].nlink == n0[i].nlink
    && Contents(b1, n1[i]) == Contents(b0, n0[i]) + data
  }

  lemma FirstRead(sb: Super, blocks: seq<Block>, inodes: Inodes, owner: Owners, freeblock: nat, freeinode: nat,
                  i: nat, din: Inode, data: seq<Byte>, w: WriteLog)
    requires Filled(sb, blocks, inodes, owner, freeblock, freeinode, 0, 0) && i in inodes
    requires TableBlock(sb, i) < sb.size ==> OnDisk(sb, blocks, i, din)
    requires w == WriteLog(blocks, inodes, i, {}, w.cost)
    ensures TableBlock(sb, i) < sb.size && din == inodes[i]
    ensures Filled(sb, blocks, inodes, owner, freeblock, freeinode, i, inodes[i].size)
    ensures WriteInv(w, blocks, inodes, i, inodes[i].size, data, 0)
    ensures Exact(blocks, inodes[i]) && forall j :: j in inodes ==> Sized(inodes[j])
  {
    SizedFilled(sb, blocks, inodes, owner, freeblock, freeinode, 0, 0);
    StartFilled(sb, blocks, inodes, owner, freeblock, freeinode, i);
    BuildingFacts(sb, blocks, inodes, owner, freeblock);
    Begin(sb, blocks, inodes, owner, freeblock, i, data, w);
    hide Building, Tight, Clear, SyncedBut, GetInode, WriteInv, Exact;
  }

  /** The inode is ready to be written back. */
  lemma AppendReady(sb: Super, blocks: seq<Block>, inodes: Inodes, owner: Owners, freeblock: nat, freeinode: nat,
                    i: nat, off: nat, data: seq<Byte>, w: WriteLog)
    requires Filled(sb, blocks, inodes, owner, freeblock, freeinode, i, off + |data|) && i in inodes
    requires WriteInv(w, blocks, inodes, i, off, data, |data|)
    requires off + |data| <= MAXFILE * BSIZE || data == []
    ensures Filled(sb, blocks, inodes[i := inodes[i].(size := off + |data|)], owner, freeblock, freeinode, i,
                   off + |data|)
  {
    assert off <= MAXFILE * BSIZE;
    hide WriteInv, Filled;
    ResizeFilled(sb, blocks, inodes, owner, freeblock, freeinode, i, off + |data|, off + |data|);
  }

  lemma AppendDone(sb: Super, w: WriteLog, b1: seq<Block>, n1: Inodes, b2: seq<Block>, n2: Inodes, owner: Owners,
                   freeblock: nat, freeinode: nat, i: nat, off: nat, data: seq<Byte>)
    requires WriteInv(w, b1, n1, i, off, data, |data|) && i in n1 && w.inodes[i].size == off && i in w.inodes
    requires n2 == n1[i := n1[i].(size := off + |data|)]
    requires Filled(sb, b2, n2, owner, freeblock, freeinode, i, off + |data|) && OnDisk(sb, b2, i, n2[i])
    requires SameBytes(b1, n2, b2, n2) && SameSlots(b1, b2, n2)
    requires Exact(w.blocks, w.inodes[i]) && forall j :: j in w.inodes ==> Sized(w.inodes[j])
    ensures Filled(sb, b2, n2, owner, freeblock, freeinode, 0, 0)
    ensures Appended(w.blocks, w.inodes, b2, n2, i, data) && Keeps(w.blocks, w.inodes, b2, n2, {i})
  {
    hide WriteInv, Filled, OnDisk, SameBytes, SameSlots, NoHoles, Contents, OthersSame, Spliced, Keeps;
    assert Sized(n2[i]) by { SizedFilled(sb, b2, n2, owner, freeblock, freeinode, i, off + |data|); }
    CappedFilled(sb, b2, n2, owner, freeblock, freeinode, i, off + |data|);
    WriteEnd(w, b1, n1, i, off, data);
    assert data == [] ==> n2[i] == n1[i] && n2 == n1;
    SameFile(w.blocks, w.inodes, b1, b2, n2, i);
    AppendIs(Contents(w.blocks, w.inodes[i]), off, data);
    EndFilled(sb, b2, n2, owner, freeblock, freeinode, i, off + |data|);
    KeepsOthers(w.blocks, w.inodes, b2, n2, i);
  }

  lemma SizedFilled(sb: Super, blocks: seq<Block>, inodes: Inodes, owner: Owners, freeblock: nat, freeinode: nat,
                    i: nat, limit: nat)
    requires Filled(sb, blocks, inodes, owner, freeblock, freeinode, i, limit)
    ensures forall j :: j in inodes ==> Sized(inodes[j])
  {
  }

  lemma CappedFilled(sb: Super, blocks: seq<Block>, inodes: Inodes, owner: Owners, freeblock: nat, freeinode: nat,
                     i: nat, limit: nat)
    requires Filled(sb, blocks, inodes, owner, freeblock, freeinode, i, limit) && i in inodes
    ensures Capped(blocks, inodes[i], limit)
  {
    hide Building, Clear, SyncedBut, Exact;
  }

  lemma KeepsOthers(b0: seq<Block>, n0: Inodes, b1: seq<Block>, n1: Inodes, i: nat)
    requires OthersSame(b0, n0, b1, n1, i) && forall j :: j in n0 ==> Sized(n0[j])
    ensures Keeps(b0, n0, b1, n1, {i})
  {
    hide ByteAt;
  }

  // ---------- Rounding ----------

  lemma RootRead(sb: Super, blocks: seq<Block>, inodes: Inodes, owner: Owners, freeblock: nat, freeinode: nat,
                 i: nat, din: Inode)
    requires Filled(sb, blocks, inodes, owner, freeblock, freeinode, 0, 0)
    requires i in inodes && inodes[i].size / BSIZE < MAXFILE
    requires TableBlock(sb, i) < sb.size ==> OnDisk(sb, blocks, i, din)
    ensures TableBlock(sb, i) < sb.size && din == inodes[i] && Exact(blocks, inodes[i])
    ensures Rounded(inodes[i]).size < UINT_LIMIT && forall j :: j in inodes ==> Sized(inodes[j])
    ensures Filled(sb, blocks, inodes[i := Rounded(inodes[i])], owner, freeblock, freeinode, i, inodes[i].size)
  {
    StartFilled(sb, blocks, inodes, owner, freeblock, freeinode, i);
    BuildingFacts(sb, blocks, inodes, owner, freeblock);
    SizedFilled(sb, blocks, inodes, owner, freeblock, freeinode, 0, 0);
    assert din == inodes[i];
    hide Filled, OnDisk, Exact;
    ResizeFilled(sb, blocks, inodes, owner, freeblock, freeinode, i, inodes[i].size,
                 (inodes[i].size / BSIZE + 1) * BSIZE);
  }

  lemma RootDone(b0: seq<Block>, n0: Inodes, b1: seq<Block>, n1: Inodes, i: nat)
    requires i in n0 && n1 == n0[i := Rounded(n0[i])] && Exact(b0, n0[i]) && n0[i].size / BSIZE < MAXFILE
    requires SameBytes(b0, n1, b1, n1) && SameSlots(b0, b1, n1) && forall j :: j in n0 ==> Sized(n0[j])
    ensures Sized(n1[i]) && (NoHoles(b1, n1[i]) <==> n0[i].size % BSIZE != 0)
    ensures Keeps(b0, n0, b1, n1, {i}) && Contents(b0, n0[i]) <= Contents(b1, n1[i])
  {
    RoundedHole(b0, n0[i]);
    HolesSame(b0, b1, n1, i);
    RoundedBytes(b0, n0[i]);
    hide Slot, ByteAt, Exact, NoHoles, SameSlots, Rounded;
    assert forall k: nat :: k < MAXFILE * BSIZE ==> ByteAt(b1, n1[i], k) == ByteAt(b0, n0[i], k);
  }

  lemma HolesSame(b0: seq<Block>, b1: seq<Block>, inodes: Inodes, i: nat)
    requires SameSlots(b0, b1, inodes) && i in inodes && Sized(inodes[i])
    ensures NoHoles(b1, inodes[i]) <==> NoHoles(b0, inodes[i])
  {
    hide Slot;
  }

  lemma RoundedBytes(blocks: seq<Block>, ip: Inode)
    requires Sized(ip)
    ensures forall k: nat :: k < MAXFILE * BSIZE ==> ByteAt(blocks, Rounded(ip), k) == ByteAt(blocks, ip, k)
  {
    assert forall s: nat :: s < SLOTS ==> Slot(blocks, Rounded(ip), s) == Slot(blocks, ip, s);
    hide Slot;
  }

  // ---------- The bitmap ----------

  lemma MapFinishes(sb: Super, blocks: seq<Block>, inodes: Inodes, owner: Owners, freeblock: nat, freeinode: nat,
                    root: nat, limit: nat, buf: Block)
    requires Layout(sb) && Filled(sb, blocks, inodes, owner, freeblock, freeinode, root, limit)
    requires root in inodes ==> OnDisk(sb, blocks, root, inodes[root])
    requires freeinode <= TableLimit(sb) && freeblock < BPB && FirstBits(buf, freeblock)
    ensures sb.bmapstart < |blocks|
    ensures var after := blocks[sb.bmapstart := buf];
      && Consistent(sb, after, inodes, owner) && Synced(sb, after, inodes)
      && SameBytes(blocks, inodes, after, inodes) && SameSlots(blocks, after, inodes)
      && forall b: nat :: b < sb.inodestart && b != 1 ==> after[b] == ZeroBlock()
  {
    MapAgrees(sb, blocks, inodes, owner, freeblock, freeinode, buf);
    BuildingKept(sb, blocks, inodes, owner, freeblock, sb.bmapstart, buf);
    hide FirstBits, Owns, Marked, SameBytes, SameSlots, Tight, GetInode;
    var after := blocks[sb.bmapstart := buf];
    forall i | i in inodes
      ensures Storable(sb, i, inodes[i]) && OnDisk(sb, after, i, inodes[i])
    {
      TablePlace(sb, i);
      assert OnDisk(sb, blocks, i, inodes[i]);
      FieldsDecoded(blocks[TableBlock(sb, i)], i % IPB);
    }
    forall b: nat | b < sb.inodestart && b != 1
      ensures after[b] == ZeroBlock()
    {
      assert Unwritten(sb, b, freeinode);
    }
  }

  lemma FieldsDecoded(b: Block, k: nat)
    requires k < IPB
    ensures FieldsFit(GetInode(b, k))
  {
  }

  lemma ChunkFacts(sb: Super, w: WriteLog, b1: seq<Block>, n1: Inodes, blocks: seq<Block>, inodes: Inodes,
                   owner: Owners, freeblock: nat, i: nat, off: nat, data: seq<Byte>, tot: nat)
    requires Building(sb, blocks, inodes, owner, freeblock) && i in inodes && |inodes[i].addrs| == NDIRECT + 1
    requires (off + tot) / BSIZE < MAXFILE && Slot(blocks, inodes[i], FileSlot((off + tot) / BSIZE)) != 0
    requires WriteInv(w, b1, n1, i, off, data, tot) && SameBytes(b1, n1, blocks, inodes)
    requires Grew(b1, n1, blocks, inodes, i)
    ensures Slot(blocks, inodes[i], FileSlot((off + tot) / BSIZE)) < |blocks|
    ensures WriteInv(w, blocks, inodes, i, off, data, tot)
  {
    hide WriteInv, SameBytes, Grew, Slot;
    BuildingFacts(sb, blocks, inodes, owner, freeblock);
    InImage(sb, blocks, inodes, owner, freeblock, i, FileSlot((off + tot) / BSIZE));
    hide Building;
    WriteMapped(w, b1, n1, blocks, inodes, i, off, data, tot);
  }

  /** The state after the data of one round has been written to its block. */
  lemma ChunkFilled(sb: Super, w: WriteLog, b1: seq<Block>, n1: Inodes, blocks: seq<Block>, inodes: Inodes,
                    owner: Owners, freeblock: nat, freeinode: nat, i: nat, off: nat, src: seq<Byte>, tot: nat, m: nat,
                    x: nat, buf: Block)
    requires Building(sb, blocks, inodes, owner, freeblock) && i in inodes && |inodes[i].addrs| == NDIRECT + 1
    requires Tight(b1, n1, i, off + tot) && Clear(sb, b1, freeinode) && SyncedBut(sb, b1, n1, i)
    requires freeinode <= TableEnd(sb) && forall j :: j in n1 ==> 0 < j < freeinode
    requires SlotsBut(b1, n1, blocks, inodes, i, FileSlot((off + tot) / BSIZE)) && Grew(b1, n1, blocks, inodes, i)
    requires SameMeta(sb, b1, blocks) && WriteInv(w, blocks, inodes, i, off, src, tot)
    requires 0 < m && tot + m <= |src| && InBlock(off + tot, m) && (tot == 0 || (off + tot) % BSIZE == 0)
    requires (off + tot) / BSIZE < MAXFILE && x == Slot(blocks, inodes[i], FileSlot((off + tot) / BSIZE)) && x != 0
    requires x < |blocks| && Overlay(blocks[x], buf, (off + tot) % BSIZE, src[tot..tot + m])
    ensures Building(sb, blocks[x := buf], inodes, owner, freeblock)
    ensures WriteInv(w, blocks[x := buf], inodes, i, off, src, tot + m)
    ensures Tight(blocks[x := buf], inodes, i, off + tot + m)
    ensures Clear(sb, blocks[x := buf], freeinode) && SyncedBut(sb, blocks[x := buf], inodes, i)
    ensures forall j :: j in inodes ==> 0 < j < freeinode
  {
    var at := off + tot;
    hide Building, Slot, WriteInv, Tight, SlotsBut, Clear, SyncedBut;
    AppendData(sb, w, blocks, inodes, owner, freeblock, i, off, src, tot, m, x, buf);
    TightMapped(b1, n1, blocks, inodes, i, at / BSIZE, at, at + m);
    AppendTight(sb, blocks, inodes, owner, freeblock, i, at / BSIZE, buf, at + m);
    DataPlace(sb, blocks, inodes, owner, freeblock, i, FileSlot(at / BSIZE));
    MetaKept(sb, b1, n1, blocks[x := buf], inodes, freeinode, i);
  }

  lemma DataPlace(sb: Super, blocks: seq<Block>, inodes: Inodes, owner: Owners, freeblock: nat, i: nat, s: nat)
    requires Building(sb, blocks, inodes, owner, freeblock) && i in inodes && s < SLOTS
    requires |inodes[i].addrs| == NDIRECT + 1 && Slot(blocks, inodes[i], s) != 0
    ensures sb.datastart <= Slot(blocks, inodes[i], s)
  {
    hide Slot;
    SlotInRange(sb, blocks, inodes, owner, i, s);
  }

  // ---------- What stays of the other files ----------

  /** Every file that is not in `but` is as it was. */
  ghost predicate Keeps(b0: seq<Block>, n0: Inodes, b1: seq<Block>, n1: Inodes, but: set<nat>)
  {
    forall j :: j in n0 && j !in but ==>
      j in n1 && n1[j] == n0[j] && Sized(n0[j]) && Contents(b1, n1[j]) == Contents(b0, n0[j])
  }

  lemma KeepsNew(b0: seq<Block>, n0: Inodes, b1: seq<Block>, n1: Inodes, i: nat, ip: Inode)
    requires i !in n0 && n1 == n0[i := ip] && SameBytes(b0, n1, b1, n1) && forall j :: j in n0 ==> Sized(n0[j])
    ensures Keeps(b0, n0, b1, n1, {})
  {
    hide ByteAt;
  }

  lemma ExactSlots(b0: seq<Block>, b1: seq<Block>, inodes: Inodes, i: nat)
    requires SameSlots(b0, b1, inodes) && i in inodes && Exact(b0, inodes[i])
    ensures Exact(b1, inodes[i])
  {
    hide Slot, NoHoles;
    ExactSame(b0, inodes[i], b1, inodes[i]);
  }
}
