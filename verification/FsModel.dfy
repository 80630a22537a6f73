/** What the blocks of the file system mean: which inode owns which block, and the bytes of each file. */
module FsModel {
  import opened Blocks
  import opened Bitmap

  const NDIRECT: nat := 12
  const NINDIRECT: nat := 128
  const MAXFILE: nat := 140
  const SLOTS: nat := 141             // 12 direct entries, the indirect block, 128 indirect entries

  const T_DEV: nat := 3

  datatype Super = Super(size: nat, inodestart: nat, bmapstart: nat, datastart: nat)

  predicate Geometry(sb: Super)
  {
    && 0 < sb.inodestart <= sb.bmapstart && 0 < sb.size < UINT_LIMIT
    && sb.bmapstart + (sb.size - 1) / BPB < sb.datastart <= sb.size
  }

  datatype Inode = Inode(kind: nat, nlink: nat, size: nat, addrs: seq<nat>)

  type Inodes = map<nat, Inode>

  /** The block number in slot s of an inode: 0..11 direct, 12 the indirect block, 13.. its entries. */
  function Slot(blocks: seq<Block>, ip: Inode, s: nat): (b: nat)
    requires |ip.addrs| == NDIRECT + 1 && s < SLOTS
  {
    if s <= NDIRECT then ip.addrs[s]
    else if 0 < ip.addrs[NDIRECT] < |blocks| then GetWord(blocks[ip.addrs[NDIRECT]], s - NDIRECT - 1)
    else 0
  }

  /** The slot of the bn-th block of a file. */
  function FileSlot(bn: nat): (s: nat)
  {
    if bn < NDIRECT then bn else bn + 1
  }

  datatype Place = Place(inum: nat, slot: nat)

  type Owners = map<nat, Place>

  predicate WellFormed(sb: Super, blocks: seq<Block>, inodes: Inodes)
  {
    Geometry(sb) && |blocks| == sb.size && forall i :: i in inodes ==> |inodes[i].addrs| == NDIRECT + 1
  }

  ghost predicate OwnerOk(sb: Super, blocks: seq<Block>, inodes: Inodes, b: nat, p: Place)
  {
    && sb.datastart <= b < sb.size && p.slot < SLOTS && p.inum in inodes
    && |inodes[p.inum].addrs| == NDIRECT + 1
    && Slot(blocks, inodes[p.inum], p.slot) == b
  }

  /** Each block referred to is referred to from exactly one place: `owner` is the inverse of Slot. */
  ghost predicate Owns(sb: Super, blocks: seq<Block>, inodes: Inodes, owner: Owners)
  {
    && WellFormed(sb, blocks, inodes)
    && (forall b :: b in owner ==> OwnerOk(sb, blocks, inodes, b, owner[b]))
    && (forall i, s: nat :: i in inodes && s < SLOTS && Slot(blocks, inodes[i], s) != 0 ==>
          Slot(blocks, inodes[i], s) in owner && owner[Slot(blocks, inodes[i], s)] == Place(i, s))
  }

  /** The bitmap marks the metadata blocks and the owned blocks, except those in `gone`, and no others. */
  ghost predicate Marked(sb: Super, blocks: seq<Block>, owner: Owners, gone: set<nat>)
  {
    forall b: nat :: b < sb.size ==>
      (InUse(blocks, sb.bmapstart, b) <==> b < sb.datastart || (b in owner && b !in gone))
  }

  // ---------- Single writes ----------

  lemma IndirectOwned(sb: Super, blocks: seq<Block>, inodes: Inodes, owner: Owners, i: nat)
    requires Owns(sb, blocks, inodes, owner) && i in inodes && inodes[i].addrs[NDIRECT] != 0
    ensures var d := inodes[i].addrs[NDIRECT];
      sb.datastart <= d < sb.size && d in owner && owner[d] == Place(i, NDIRECT)
  {
    assert Slot(blocks, inodes[i], NDIRECT) == inodes[i].addrs[NDIRECT];
  }

  /** Blocks other than indirect blocks can be overwritten without changing who owns what. */
  lemma SlotsSame(sb: Super, blocks: seq<Block>, inodes: Inodes, owner: Owners, b: nat, data: Block)
    requires Owns(sb, blocks, inodes, owner) && b < sb.size
    requires b in owner ==> owner[b].slot != NDIRECT
    ensures forall i, s: nat :: i in inodes && s < SLOTS ==>
      Slot(blocks[b := data], inodes[i], s) == Slot(blocks, inodes[i], s)
  {
    forall i, s: nat | i in inodes && s < SLOTS
      ensures Slot(blocks[b := data], inodes[i], s) == Slot(blocks, inodes[i], s)
    {
      if inodes[i].addrs[NDIRECT] != 0 {
        IndirectOwned(sb, blocks, inodes, owner, i);
      }
    }
  }

  lemma OwnsSame(sb: Super, blocks: seq<Block>, blocks': seq<Block>, inodes: Inodes, owner: Owners)
    requires Owns(sb, blocks, inodes, owner) && |blocks'| == |blocks|
    requires forall i, s: nat :: i in inodes && s < SLOTS ==> Slot(blocks', inodes[i], s) == Slot(blocks, inodes[i], s)
    ensures Owns(sb, blocks', inodes, owner)
  {
    hide Slot, Geometry;
    forall b | b in owner
      ensures OwnerOk(sb, blocks', inodes, b, owner[b])
    {
      assert OwnerOk(sb, blocks, inodes, b, owner[b]);
    }
  }

  lemma WriteKeepsOwns(sb: Super, blocks: seq<Block>, inodes: Inodes, owner: Owners, b: nat, data: Block)
    requires Owns(sb, blocks, inodes, owner) && b < sb.size
    requires b in owner ==> owner[b].slot != NDIRECT
    ensures Owns(sb, blocks[b := data], inodes, owner)
  {
    hide Owns, Slot;
    assert |blocks| == sb.size by { SizeFact(sb, blocks, inodes, owner); }
    SlotsSame(sb, blocks, inodes, owner, b, data);
    SizeFact(sb, blocks, inodes, owner);
    OwnsSame(sb, blocks, blocks[b := data], inodes, owner);
  }

  lemma SizeFact(sb: Super, blocks: seq<Block>, inodes: Inodes, owner: Owners)
    requires Owns(sb, blocks, inodes, owner)
    ensures WellFormed(sb, blocks, inodes)
  {
  }

  /** Blocks behind the metadata hold no bitmap. */
  lemma WriteKeepsMarked(sb: Super, blocks: seq<Block>, owner: Owners, gone: set<nat>, b: nat, data: Block)
    requires Geometry(sb) && |blocks| == sb.size && Marked(sb, blocks, owner, gone) && sb.datastart <= b < sb.size
    ensures Marked(sb, blocks[b := data], owner, gone)
  {
    var after := blocks[b := data];
    forall c: nat | c < sb.size
      ensures InUse(after, sb.bmapstart, c) <==> InUse(blocks, sb.bmapstart, c)
    {
      assert c / BPB <= (sb.size - 1) / BPB;
    }
  }

  // ---------- Attaching and detaching blocks ----------

  /** The new state differs in slot s of inode i, which holds b, and in no other slot. */
  ghost predicate OneSlot(blocks: seq<Block>, inodes: Inodes, blocks': seq<Block>, inodes': Inodes, i: nat, s: nat,
                          b: nat)
  {
    && inodes'.Keys == inodes.Keys
    && (forall j :: j in inodes ==> |inodes[j].addrs| == |inodes'[j].addrs| == NDIRECT + 1)
    && forall j, t: nat :: j in inodes && t < SLOTS ==>
         Slot(blocks', inodes'[j], t) == if j == i && t == s then b else Slot(blocks, inodes[j], t)
  }

  function WithAddr(inodes: Inodes, i: nat, s: nat, b: nat): (r: Inodes)
    requires i in inodes && s < |inodes[i].addrs|
  {
    inodes[i := inodes[i].(addrs := inodes[i].addrs[s := b])]
  }

  /** Putting block b into direct slot s, or a zeroed block into the indirect slot, changes that slot only. */
  lemma AttachSlots(sb: Super, blocks: seq<Block>, inodes: Inodes, owner: Owners, i: nat, s: nat, b: nat)
    requires Owns(sb, blocks, inodes, owner) && i in inodes && s <= NDIRECT && inodes[i].addrs[s] == 0
    requires sb.datastart <= b < sb.size && (s == NDIRECT ==> blocks[b] == ZeroBlock())
    ensures OneSlot(blocks, inodes, blocks, WithAddr(inodes, i, s, b), i, s, b)
  {
    forall j, t: nat | j in inodes && t < SLOTS
      ensures Slot(blocks, WithAddr(inodes, i, s, b)[j], t) ==
        if j == i && t == s then b else Slot(blocks, inodes[j], t)
    {
      if j == i && s == NDIRECT && t > NDIRECT {
        ZeroWord(t - NDIRECT - 1);
      }
    }
  }

  /** When exactly one slot changes from 0 to a block nobody owned, that block gets that owner. */
  lemma OwnsGrow(sb: Super, blocks: seq<Block>, inodes: Inodes, blocks': seq<Block>, inodes': Inodes,
                 owner: Owners, i: nat, s: nat, b: nat)
    requires Owns(sb, blocks, inodes, owner) && WellFormed(sb, blocks', inodes')
    requires i in inodes && s < SLOTS && Slot(blocks, inodes[i], s) == 0
    requires sb.datastart <= b < sb.size && b !in owner
    requires OneSlot(blocks, inodes, blocks', inodes', i, s, b)
    ensures Owns(sb, blocks', inodes', owner[b := Place(i, s)])
  {
    hide Slot;
    var owner' := owner[b := Place(i, s)];
    forall c | c in owner'
      ensures OwnerOk(sb, blocks', inodes', c, owner'[c])
    {
      if c != b {
        assert OwnerOk(sb, blocks, inodes, c, owner[c]);
      }
    }
  }

  lemma Attach(sb: Super, blocks: seq<Block>, inodes: Inodes, owner: Owners, i: nat, s: nat, b: nat)
    requires Owns(sb, blocks, inodes, owner) && i in inodes && s <= NDIRECT && inodes[i].addrs[s] == 0
    requires sb.datastart <= b < sb.size && b !in owner && (s == NDIRECT ==> blocks[b] == ZeroBlock())
    ensures Owns(sb, blocks, WithAddr(inodes, i, s, b), owner[b := Place(i, s)])
    ensures OneSlot(blocks, inodes, blocks, WithAddr(inodes, i, s, b), i, s, b)
  {
    AttachSlots(sb, blocks, inodes, owner, i, s, b);
    assert Slot(blocks, inodes[i], s) == 0;
    SizeFact(sb, blocks, inodes, owner);
    hide Owns, Slot;
    OwnsGrow(sb, blocks, inodes, blocks, WithAddr(inodes, i, s, b), owner, i, s, b);
  }

  lemma AttachEntrySlots(sb: Super, blocks: seq<Block>, inodes: Inodes, owner: Owners, i: nat, s: nat, b: nat)
    requires Owns(sb, blocks, inodes, owner) && i in inodes && NDIRECT < s < SLOTS && b < UINT_LIMIT
    requires inodes[i].addrs[NDIRECT] != 0 && inodes[i].addrs[NDIRECT] < |blocks|
    ensures var d := inodes[i].addrs[NDIRECT];
      OneSlot(blocks, inodes, blocks[d := PutWord(blocks[d], s - NDIRECT - 1, b)], inodes, i, s, b)
  {
    var d := inodes[i].addrs[NDIRECT];
    var blocks' := blocks[d := PutWord(blocks[d], s - NDIRECT - 1, b)];
    IndirectOwned(sb, blocks, inodes, owner, i);
    forall j, t: nat | j in inodes && t < SLOTS
      ensures Slot(blocks', inodes[j], t) == if j == i && t == s then b else Slot(blocks, inodes[j], t)
    {
      if t > NDIRECT && inodes[j].addrs[NDIRECT] != 0 {
        IndirectOwned(sb, blocks, inodes, owner, j);
        GetPutWord(blocks[d], s - NDIRECT - 1, b, t - NDIRECT - 1);
      }
    }
  }

  lemma AttachEntry(sb: Super, blocks: seq<Block>, inodes: Inodes, owner: Owners, i: nat, s: nat, b: nat)
    requires Owns(sb, blocks, inodes, owner) && i in inodes && NDIRECT < s < SLOTS
    requires 0 < inodes[i].addrs[NDIRECT] < |blocks| && Slot(blocks, inodes[i], s) == 0
    requires sb.datastart <= b < sb.size && b !in owner
    ensures b < UINT_LIMIT
    ensures var d := inodes[i].addrs[NDIRECT];
      && Owns(sb, blocks[d := PutWord(blocks[d], s - NDIRECT - 1, b)], inodes, owner[b := Place(i, s)])
      && OneSlot(blocks, inodes, blocks[d := PutWord(blocks[d], s - NDIRECT - 1, b)], inodes, i, s, b)
  {
    SizeFact(sb, blocks, inodes, owner);
    hide Owns, Slot;
    AttachEntrySlots(sb, blocks, inodes, owner, i, s, b);
    var d := inodes[i].addrs[NDIRECT];
    OwnsGrow(sb, blocks, inodes, blocks[d := PutWord(blocks[d], s - NDIRECT - 1, b)], inodes, owner, i, s, b);
  }

  /** Clearing a direct slot gives up its block. */
  lemma DetachDirect(sb: Super, blocks: seq<Block>, inodes: Inodes, owner: Owners, i: nat, s: nat)
    requires Owns(sb, blocks, inodes, owner) && i in inodes && s < NDIRECT && inodes[i].addrs[s] != 0
    ensures Owns(sb, blocks, WithAddr(inodes, i, s, 0), owner - {inodes[i].addrs[s]})
  {
    var b := inodes[i].addrs[s];
    var inodes', owner' := WithAddr(inodes, i, s, 0), owner - {b};
    assert Slot(blocks, inodes[i], s) == b;
    assert forall j, t: nat :: j in inodes && t < SLOTS ==>
      Slot(blocks, inodes'[j], t) == if j == i && t == s then 0 else Slot(blocks, inodes[j], t);
    hide Slot, Geometry;
    forall c | c in owner'
      ensures OwnerOk(sb, blocks, inodes', c, owner'[c])
    {
      assert OwnerOk(sb, blocks, inodes, c, owner[c]);
    }
  }

  /** The blocks an inode reaches through its indirect block, that block included. */
  function IndirectBlocks(owner: Owners, i: nat): (bs: set<nat>)
  {
    set b | b in owner && owner[b].inum == i && owner[b].slot >= NDIRECT
  }

  lemma DetachIndirect(sb: Super, blocks: seq<Block>, inodes: Inodes, owner: Owners, i: nat)
    requires Owns(sb, blocks, inodes, owner) && i in inodes && inodes[i].addrs[NDIRECT] != 0
    ensures Owns(sb, blocks, WithAddr(inodes, i, NDIRECT, 0), owner - IndirectBlocks(owner, i))
  {
    var inodes', owner' := WithAddr(inodes, i, NDIRECT, 0), owner - IndirectBlocks(owner, i);
    assert forall j, t: nat :: j in inodes && t < SLOTS ==>
      Slot(blocks, inodes'[j], t) == if j == i && t >= NDIRECT then 0 else Slot(blocks, inodes[j], t);
    hide Slot, Geometry;
    forall c | c in owner'
      ensures OwnerOk(sb, blocks, inodes', c, owner'[c])
    {
      assert OwnerOk(sb, blocks, inodes, c, owner[c]);
    }
  }

  // ---------- Bytes ----------

  /** Byte k of a file; a hole reads as zero. */
  function ByteAt(blocks: seq<Block>, ip: Inode, k: nat): (x: Byte)
    requires |ip.addrs| == NDIRECT + 1 && k < MAXFILE * BSIZE
  {
    var b := Slot(blocks, ip, FileSlot(k / BSIZE));
    if 0 < b < |blocks| then blocks[b][k % BSIZE] else 0
  }

  predicate Sized(ip: Inode)
  {
    |ip.addrs| == NDIRECT + 1 && ip.size <= MAXFILE * BSIZE
  }

  /** The file as a byte sequence. */
  function Contents(blocks: seq<Block>, ip: Inode): (c: seq<Byte>)
    requires Sized(ip)
    ensures |c| == ip.size
  {
    seq(ip.size, k requires 0 <= k < ip.size => ByteAt(blocks, ip, k))
  }

  predicate NoHoles(blocks: seq<Block>, ip: Inode)
    requires Sized(ip)
  {
    forall n :: 0 <= n < MAXFILE && n * BSIZE < ip.size ==> Slot(blocks, ip, FileSlot(n)) != 0
  }

  /** All files, all bytes, as before. */
  ghost predicate SameBytes(blocks: seq<Block>, inodes: Inodes, blocks': seq<Block>, inodes': Inodes)
  {
    && inodes'.Keys == inodes.Keys
    && (forall i :: i in inodes ==> |inodes[i].addrs| == NDIRECT + 1 && |inodes'[i].addrs| == NDIRECT + 1)
    && forall i, k: nat :: i in inodes && k < MAXFILE * BSIZE ==>
         ByteAt(blocks', inodes'[i], k) == ByteAt(blocks, inodes[i], k)
  }

  lemma SameBytesTrans(b0: seq<Block>, n0: Inodes, b1: seq<Block>, n1: Inodes, b2: seq<Block>, n2: Inodes)
    requires SameBytes(b0, n0, b1, n1) && SameBytes(b1, n1, b2, n2)
    ensures SameBytes(b0, n0, b2, n2)
  {
    hide ByteAt;
  }

  /** Writing a block that no file uses, or a bitmap block, changes no byte of any file. */
  lemma QuietWrite(sb: Super, blocks: seq<Block>, inodes: Inodes, owner: Owners, b: nat, data: Block)
    requires Owns(sb, blocks, inodes, owner) && b < sb.size && b !in owner
    ensures SameBytes(blocks, inodes, blocks[b := data], inodes)
  {
    SlotsSame(sb, blocks, inodes, owner, b, data);
    forall i, k: nat | i in inodes && k < MAXFILE * BSIZE
      ensures ByteAt(blocks[b := data], inodes[i], k) == ByteAt(blocks, inodes[i], k)
    {
      assert Slot(blocks, inodes[i], FileSlot(k / BSIZE)) != b || b == 0;
    }
  }

  /** Filling an empty slot with a zeroed block changes no byte of any file. */
  lemma QuietAttach(sb: Super, blocks: seq<Block>, inodes: Inodes, blocks': seq<Block>, inodes': Inodes,
                    owner: Owners, i: nat, s: nat, b: nat)
    requires Owns(sb, blocks, inodes, owner) && WellFormed(sb, blocks', inodes')
    requires i in inodes && s < SLOTS && Slot(blocks, inodes[i], s) == 0
    requires b < sb.size && blocks'[b] == ZeroBlock()
    requires OneSlot(blocks, inodes, blocks', inodes', i, s, b)
    requires forall c :: 0 <= c < sb.size && (c in owner ==> owner[c].slot != NDIRECT) ==> blocks'[c] == blocks[c]
    ensures SameBytes(blocks, inodes, blocks', inodes')
  {
    hide Slot, Geometry;
    forall j, k: nat | j in inodes && k < MAXFILE * BSIZE
      ensures ByteAt(blocks', inodes'[j], k) == ByteAt(blocks, inodes[j], k)
    {
      var t := FileSlot(k / BSIZE);
      var c := Slot(blocks, inodes[j], t);
      assert c != 0 ==> owner[c] == Place(j, t);
    }
  }

  /** Byte k once block n of the file holds `data`. */
  function Patched(blocks: seq<Block>, ip: Inode, n: nat, data: Block, k: nat): (x: Byte)
    requires |ip.addrs| == NDIRECT + 1 && k < MAXFILE * BSIZE
  {
    if k / BSIZE == n then data[k % BSIZE] else ByteAt(blocks, ip, k)
  }

  /** Writing a data block changes the bytes of its own place and nothing else. */
  lemma DataWrite(sb: Super, blocks: seq<Block>, inodes: Inodes, owner: Owners, i: nat, n: nat, b: nat, data: Block)
    requires Owns(sb, blocks, inodes, owner) && i in inodes && n < MAXFILE
    requires b == Slot(blocks, inodes[i], FileSlot(n)) && b != 0
    ensures sb.datastart <= b < sb.size && b in owner && owner[b] == Place(i, FileSlot(n))
    ensures forall k: nat :: k < MAXFILE * BSIZE ==>
      ByteAt(blocks[b := data], inodes[i], k) == Patched(blocks, inodes[i], n, data, k)
    ensures forall j, k: nat :: j in inodes && j != i && k < MAXFILE * BSIZE ==>
      ByteAt(blocks[b := data], inodes[j], k) == ByteAt(blocks, inodes[j], k)
  {
    assert OwnerOk(sb, blocks, inodes, b, owner[b]);
    SlotsSame(sb, blocks, inodes, owner, b, data);
    hide Slot;
    forall j, k: nat | j in inodes && k < MAXFILE * BSIZE
      ensures j == i ==> ByteAt(blocks[b := data], inodes[j], k) == Patched(blocks, inodes[i], n, data, k)
      ensures j != i ==> ByteAt(blocks[b := data], inodes[j], k) == ByteAt(blocks, inodes[j], k)
    {
      var t := FileSlot(k / BSIZE);
      var c := Slot(blocks, inodes[j], t);
      assert c != 0 ==> owner[c] == Place(j, t);
      assert t == FileSlot(n) <==> k / BSIZE == n;
    }
  }
}
