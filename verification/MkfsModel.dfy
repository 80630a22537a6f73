/** What mkfs keeps while it builds the image: blocks are handed out in order, no file has a hole or a block past its
    end, and the inode table on disk is up to date. */
module MkfsModel {
  import opened Blocks
  import opened Bitmap
  import opened Dinode
  import opened FsModel
  import opened Fs
  import opened Params

  function NoAddrs(): (a: seq<nat>)
    ensures |a| == NDIRECT + 1
  {
    seq(NDIRECT + 1, k => 0)
  }

  /** The used data blocks are exactly those below `freeblock`; all others are still zero. */
  ghost predicate Building(sb: Super, blocks: seq<Block>, inodes: Inodes, owner: Owners, freeblock: nat)
  {
    && Owns(sb, blocks, inodes, owner) && sb.datastart <= freeblock <= sb.size
    && (forall b :: b in owner <==> sb.datastart <= b < freeblock)
    && (forall b :: freeblock <= b < sb.size ==> blocks[b] == ZeroBlock())
    && (forall i :: i in inodes ==> Sized(inodes[i]))
  }

  lemma BuildingFacts(sb: Super, blocks: seq<Block>, inodes: Inodes, owner: Owners, freeblock: nat)
    requires Building(sb, blocks, inodes, owner, freeblock)
    ensures WellFormed(sb, blocks, inodes) && 0 < sb.datastart <= freeblock && freeblock !in owner
    ensures freeblock < sb.size ==> blocks[freeblock] == ZeroBlock()
  {
  }

  /** No slot but slot s of inode i, and none of the indirect slots, holds another block than before. */
  ghost predicate SlotsBut(blocks: seq<Block>, inodes: Inodes, blocks': seq<Block>, inodes': Inodes, i: nat, s: nat)
  {
    && inodes'.Keys == inodes.Keys
    && (forall j :: j in inodes ==>
          |inodes[j].addrs| == |inodes'[j].addrs| == NDIRECT + 1 && inodes'[j].size == inodes[j].size)
    && forall j, t: nat :: j in inodes && t < SLOTS && t != NDIRECT && !(j == i && t == s) ==>
         Slot(blocks', inodes'[j], t) == Slot(blocks, inodes[j], t)
  }

  lemma OneSlotBut(blocks: seq<Block>, inodes: Inodes, blocks': seq<Block>, inodes': Inodes, i: nat, s: nat, b: nat)
    requires OneSlot(blocks, inodes, blocks', inodes', i, s, b) && Grew(blocks, inodes, blocks', inodes', i)
    ensures SlotsBut(blocks, inodes, blocks', inodes', i, s)
  {
    hide Slot;
  }

  lemma SlotsButTrans(b0: seq<Block>, n0: Inodes, b1: seq<Block>, n1: Inodes, b2: seq<Block>, n2: Inodes, i: nat,
                      s: nat)
    requires SlotsBut(b0, n0, b1, n1, i, NDIRECT) && SlotsBut(b1, n1, b2, n2, i, s)
    ensures SlotsBut(b0, n0, b2, n2, i, s)
  {
    hide Slot;
  }

  lemma SlotsButSelf(blocks: seq<Block>, inodes: Inodes, i: nat, s: nat)
    requires forall j :: j in inodes ==> |inodes[j].addrs| == NDIRECT + 1
    ensures SlotsBut(blocks, inodes, blocks, inodes, i, s)
  {
  }

  /** No block of the file is mapped at or past the limit. */
  ghost predicate Capped(blocks: seq<Block>, ip: Inode, limit: nat)
  {
    |ip.addrs| == NDIRECT + 1 && forall n: nat :: n < MAXFILE && Slot(blocks, ip, FileSlot(n)) != 0 ==>
      n * BSIZE < limit
  }

  /** The file has the blocks of its bytes, and no others. */
  ghost predicate Exact(blocks: seq<Block>, ip: Inode)
  {
    Sized(ip) && Capped(blocks, ip, ip.size) && NoHoles(blocks, ip)
  }

  /** Every file is exact, but inode i may have a hole, and blocks up to the limit. */
  ghost predicate Tight(blocks: seq<Block>, inodes: Inodes, i: nat, limit: nat)
  {
    forall j :: j in inodes ==> if j == i then Capped(blocks, inodes[j], limit) else Exact(blocks, inodes[j])
  }

  lemma ExactSame(b0: seq<Block>, ip0: Inode, b1: seq<Block>, ip1: Inode)
    requires Exact(b0, ip0) && |ip1.addrs| == NDIRECT + 1 && ip1.size == ip0.size
    requires forall n: nat :: n < MAXFILE ==> Slot(b1, ip1, FileSlot(n)) == Slot(b0, ip0, FileSlot(n))
    ensures Exact(b1, ip1)
  {
    hide Slot;
  }

  lemma TightMapped(b0: seq<Block>, n0: Inodes, b1: seq<Block>, n1: Inodes, i: nat, bn: nat, limit: nat, limit': nat)
    requires Tight(b0, n0, i, limit) && SlotsBut(b0, n0, b1, n1, i, FileSlot(bn)) && bn < MAXFILE
    requires limit <= limit' && bn * BSIZE < limit'
    ensures Tight(b1, n1, i, limit')
  {
    hide Slot, NoHoles;
    forall j | j in n1
      ensures if j == i then Capped(b1, n1[j], limit') else Exact(b1, n1[j])
    {
      if j == i {
        assert Capped(b0, n0[j], limit);
      } else {
        ExactSame(b0, n0[j], b1, n1[j]);
      }
    }
  }

  lemma TightSlots(b0: seq<Block>, b1: seq<Block>, inodes: Inodes, i: nat, limit: nat)
    requires SameSlots(b0, b1, inodes) && Tight(b0, inodes, i, limit)
    ensures Tight(b1, inodes, i, limit)
  {
    hide Slot, NoHoles;
    forall j | j in inodes
      ensures if j == i then Capped(b1, inodes[j], limit) else Exact(b1, inodes[j])
    {
      if j == i {
        assert Capped(b0, inodes[j], limit);
      } else {
        ExactSame(b0, inodes[j], b1, inodes[j]);
      }
    }
  }

  lemma TightWritten(sb: Super, blocks: seq<Block>, inodes: Inodes, owner: Owners, b: nat, data: Block, i: nat,
                     limit: nat)
    requires Owns(sb, blocks, inodes, owner) && b < sb.size && (b in owner ==> owner[b].slot != NDIRECT)
    requires Tight(blocks, inodes, i, limit)
    ensures b < |blocks| && Tight(blocks[b := data], inodes, i, limit)
  {
    SizeFact(sb, blocks, inodes, owner);
    SlotsSame(sb, blocks, inodes, owner, b, data);
    hide Slot, Owns, Tight;
    TightSlots(blocks, blocks[b := data], inodes, i, limit);
  }

  /** The size of inode i is not looked at. */
  lemma TightResized(blocks: seq<Block>, inodes: Inodes, i: nat, size: nat, limit: nat)
    requires Tight(blocks, inodes, i, limit) && i in inodes
    ensures Tight(blocks, inodes[i := inodes[i].(size := size)], i, limit)
  {
    var ip, r := inodes[i], inodes[i].(size := size);
    assert Capped(blocks, ip, limit);
    assert forall s: nat :: s < SLOTS ==> Slot(blocks, r, s) == Slot(blocks, ip, s);
    hide Slot, Exact;
  }

  lemma TightNew(blocks: seq<Block>, inodes: Inodes, i: nat, ip: Inode)
    requires Tight(blocks, inodes, 0, 0) && 0 !in inodes && i !in inodes && ip.addrs == NoAddrs()
    ensures Tight(blocks, inodes[i := ip], i, 0)
  {
    assert forall s: nat :: s < SLOTS ==> Slot(blocks, ip, s) == 0;
    hide Slot, Exact;
  }

  lemma DataSlot(sb: Super, blocks: seq<Block>, inodes: Inodes, owner: Owners, i: nat, bn: nat)
    requires Owns(sb, blocks, inodes, owner) && i in inodes && |inodes[i].addrs| == NDIRECT + 1 && bn < MAXFILE
    requires Slot(blocks, inodes[i], FileSlot(bn)) != 0
    ensures var b := Slot(blocks, inodes[i], FileSlot(bn)); b < sb.size && b in owner && owner[b].slot != NDIRECT
  {
    var b := Slot(blocks, inodes[i], FileSlot(bn));
    assert b in owner && owner[b] == Place(i, FileSlot(bn));
    assert OwnerOk(sb, blocks, inodes, b, owner[b]);
    hide Slot;
  }

  /** Taking the next block for an empty direct slot or the empty indirect slot. */
  lemma TakeDirect(sb: Super, blocks: seq<Block>, inodes: Inodes, owner: Owners, freeblock: nat, i: nat, s: nat)
    requires Building(sb, blocks, inodes, owner, freeblock) && freeblock < sb.size
    requires i in inodes && s <= NDIRECT && inodes[i].addrs[s] == 0
    ensures var inodes', owner' := WithAddr(inodes, i, s, freeblock), owner[freeblock := Place(i, s)];
      && Building(sb, blocks, inodes', owner', freeblock + 1)
      && SameBytes(blocks, inodes, blocks, inodes') && Grew(blocks, inodes, blocks, inodes', i)
      && SlotsBut(blocks, inodes, blocks, inodes', i, s)
  {
    var b := freeblock;
    var inodes' := WithAddr(inodes, i, s, b);
    EmptySlot(blocks, inodes[i], s);
    hide Owns, Slot, ByteAt, OneSlot, SameBytes, Grew, SlotsBut;
    Attach(sb, blocks, inodes, owner, i, s, b);
    SizeFact(sb, blocks, inodes', owner[b := Place(i, s)]);
    QuietAttach(sb, blocks, inodes, blocks, inodes', owner, i, s, b);
    OneSlotGrew(blocks, inodes, blocks, inodes', i, s, b);
    OneSlotBut(blocks, inodes, blocks, inodes', i, s, b);
  }

  /** Taking the next block for an empty entry of the indirect block. */
  lemma TakeEntry(sb: Super, blocks: seq<Block>, inodes: Inodes, owner: Owners, freeblock: nat, i: nat, s: nat)
    requires Building(sb, blocks, inodes, owner, freeblock) && freeblock < sb.size
    requires i in inodes && NDIRECT < s < SLOTS && inodes[i].addrs[NDIRECT] != 0 && Slot(blocks, inodes[i], s) == 0
    ensures inodes[i].addrs[NDIRECT] < |blocks| && freeblock < UINT_LIMIT
    ensures var d := inodes[i].addrs[NDIRECT];
      var blocks' := blocks[d := PutWord(blocks[d], s - NDIRECT - 1, freeblock)];
      var owner' := owner[freeblock := Place(i, s)];
      && Building(sb, blocks', inodes, owner', freeblock + 1)
      && SameBytes(blocks, inodes, blocks', inodes) && Grew(blocks, inodes, blocks', inodes, i)
      && SlotsBut(blocks, inodes, blocks', inodes, i, s)
  {
    var b, d := freeblock, inodes[i].addrs[NDIRECT];
    IndirectOwned(sb, blocks, inodes, owner, i);
    hide Owns, Slot, ByteAt, OneSlot, SameBytes, Grew, SlotsBut;
    AttachEntry(sb, blocks, inodes, owner, i, s, b);
    var blocks' := blocks[d := PutWord(blocks[d], s - NDIRECT - 1, b)];
    SizeFact(sb, blocks', inodes, owner[b := Place(i, s)]);
    QuietAttach(sb, blocks, inodes, blocks', inodes, owner, i, s, b);
    OneSlotGrew(blocks, inodes, blocks', inodes, i, s, b);
    OneSlotBut(blocks, inodes, blocks', inodes, i, s, b);
  }

  lemma {:induction false} ZeroBit(q: nat)
    ensures !Bit(0, q)
  {
    if q > 0 {
      ZeroBit(q - 1);
    }
  }

  /** A bitmap block with exactly the first `used` bits set. */
  ghost predicate FirstBits(buf: Block, used: nat)
  {
    forall i :: 0 <= i < BPB ==> (GetBit(buf, i) <==> i < used)
  }

  lemma ZeroBits(used: nat)
    requires used == 0
    ensures FirstBits(ZeroBlock(), used)
  {
    forall i | 0 <= i < BPB
      ensures !GetBit(ZeroBlock(), i)
    {
      ZeroBit(i % 8);
    }
  }

  /** The first inode number whose place in the table would be in the bitmap. */
  function TableLimit(sb: Super): (n: int)
  {
    IPB * (sb.bmapstart - sb.inodestart)
  }

  /** The first whose place would be in the data blocks. */
  function TableEnd(sb: Super): (n: int)
  {
    IPB * (sb.datastart - sb.inodestart)
  }

  lemma TablePlace(sb: Super, i: nat)
    ensures TableBlock(sb, i) < sb.bmapstart <==> i < TableLimit(sb)
    ensures TableBlock(sb, i) < sb.datastart <==> i < TableEnd(sb)
  {
  }

  /** Apart from the superblock, nothing has been written before the inode table, nor behind its last inode. */
  ghost predicate Clear(sb: Super, blocks: seq<Block>, freeinode: nat)
  {
    |blocks| == sb.size && forall b: nat :: b < sb.datastart <= sb.size && b != 1 && Unwritten(sb, b, freeinode) ==>
      blocks[b] == ZeroBlock()
  }

  predicate Unwritten(sb: Super, b: nat, freeinode: nat)
  {
    b < sb.inodestart || IPB * (b - sb.inodestart) >= freeinode
  }

  /** The table on disk has every inode but i. */
  ghost predicate SyncedBut(sb: Super, blocks: seq<Block>, inodes: Inodes, i: nat)
  {
    forall j :: j in inodes && j != i ==> OnDisk(sb, blocks, j, inodes[j])
  }

  /** Writing the bitmap makes it agree with the blocks handed out, if the inode table has not grown into it. */
  lemma MapAgrees(sb: Super, blocks: seq<Block>, inodes: Inodes, owner: Owners, freeblock: nat, freeinode: nat,
                  buf: Block)
    requires Building(sb, blocks, inodes, owner, freeblock) && freeblock < BPB && FirstBits(buf, freeblock)
    requires Clear(sb, blocks, freeinode) && freeinode <= TableLimit(sb) && 1 < sb.bmapstart
    ensures Owns(sb, blocks[sb.bmapstart := buf], inodes, owner)
    ensures Marked(sb, blocks[sb.bmapstart := buf], owner, {})
  {
    BuildingFacts(sb, blocks, inodes, owner, freeblock);
    WriteKeepsOwns(sb, blocks, inodes, owner, sb.bmapstart, buf);
    hide Owns, GetBit;
    var after := blocks[sb.bmapstart := buf];
    forall b: nat | b < sb.size
      ensures InUse(after, sb.bmapstart, b) <==> b < freeblock
    {
      MapInRange(sb, b);
      if b / BPB > 0 {
        assert Unwritten(sb, sb.bmapstart + b / BPB, freeinode);
        assert after[sb.bmapstart + b / BPB] == ZeroBlock();
        ZeroBits(0);
      }
    }
  }

  lemma {:induction false} AllBits(x: nat, n: nat)
    requires x < Power(n) && forall q: nat :: q < n ==> Bit(x, q)
    ensures x == Power(n) - 1
  {
    if n > 0 {
      assert Bit(x, 0);
      forall q: nat | q < n - 1
        ensures Bit(x / 2, q)
      {
        assert Bit(x, q + 1);
      }
      AllBits(x / 2, n - 1);
    }
  }

  lemma FullByte(buf: Block, used: nat, k: nat)
    requires FirstBits(buf, used) && 8 * k + 8 <= used && k < BSIZE
    ensures buf[k] == 255
  {
    forall q: nat | q < 8
      ensures Bit(buf[k], q)
    {
      assert GetBit(buf, 8 * k + q);
      assert (8 * k + q) / 8 == k && (8 * k + q) % 8 == q;
    }
    PowerEight();
    AllBits(buf[k], 8);
  }

  /** The bitmap of two bytes' worth of blocks, read as an inode, has a type that no inode has. */
  lemma MapIsNoInode(buf: Block, used: nat)
    requires FirstBits(buf, used) && used >= 16
    ensures GetInode(buf, 0).kind == SHORT_LIMIT - 1
  {
    FullByte(buf, used, 0);
    FullByte(buf, used, 1);
    var w := GetWord(buf, 0);
    var b2: int, b3: int := buf[2], buf[3];
    assert w == 0xFFFF + 0x1_0000 * (b2 + 0x100 * b3);
  }

  /** One if the inode still lacks its indirect block. */
  function Missing(ip: Inode): (n: nat)
  {
    if |ip.addrs| == NDIRECT + 1 && ip.addrs[NDIRECT] == 0 then 1 else 0
  }

  function Sector(k: nat, super: Block): (b: Block)
  {
    if k == 1 then super else ZeroBlock()
  }

  /** The size mkfs gives the root directory in the end: up to the next block, also from a block boundary. */
  function Rounded(ip: Inode): (r: Inode)
  {
    ip.(size := (ip.size / BSIZE + 1) * BSIZE)
  }

  /** In a file without a block past its end, rounding leaves no hole exactly when the size was not a multiple of the
      block size. */
  lemma RoundedHole(blocks: seq<Block>, ip: Inode)
    requires Sized(ip) && ip.size / BSIZE < MAXFILE && NoHoles(blocks, ip) && Capped(blocks, ip, ip.size)
    ensures Sized(Rounded(ip))
    ensures NoHoles(blocks, Rounded(ip)) <==> ip.size % BSIZE != 0
  {
    var r, last := Rounded(ip), ip.size / BSIZE;
    assert forall s: nat :: s < SLOTS ==> Slot(blocks, r, s) == Slot(blocks, ip, s);
    hide Slot;
    assert last * BSIZE < r.size && (ip.size % BSIZE != 0 <==> last * BSIZE < ip.size);
    if ip.size % BSIZE != 0 {
      forall n | 0 <= n < MAXFILE && n * BSIZE < r.size
        ensures Slot(blocks, r, FileSlot(n)) != 0
      {
        assert n != last ==> n * BSIZE < ip.size;
      }
    } else {
      assert Slot(blocks, r, FileSlot(last)) == 0;
    }
  }

  // ---------- The whole invariant ----------

  /** Between two calls, with i == 0, and while inode i is being filled up to the limit. */
  ghost predicate Filled(sb: Super, blocks: seq<Block>, inodes: Inodes, owner: Owners, freeblock: nat, freeinode: nat,
                         i: nat, limit: nat)
  {
    && Building(sb, blocks, inodes, owner, freeblock) && Tight(blocks, inodes, i, limit)
    && Clear(sb, blocks, freeinode) && SyncedBut(sb, blocks, inodes, i)
    && 0 < freeinode <= TableEnd(sb) && forall j :: j in inodes ==> 0 < j < freeinode
  }

  /** The blocks before the data are as before. */
  ghost predicate SameMeta(sb: Super, b0: seq<Block>, b1: seq<Block>)
  {
    |b1| == |b0| && forall b: nat :: b < |b0| && b < sb.datastart ==> b1[b] == b0[b]
  }

  lemma MetaKept(sb: Super, b0: seq<Block>, n0: Inodes, b1: seq<Block>, n1: Inodes, freeinode: nat, i: nat)
    requires SameMeta(sb, b0, b1) && Clear(sb, b0, freeinode) && SyncedBut(sb, b0, n0, i) && n1.Keys == n0.Keys
    requires freeinode <= TableEnd(sb) && forall j :: j in n0 ==> j < freeinode
    requires forall j :: j in n0 && j != i ==> n1[j] == n0[j]
    ensures Clear(sb, b1, freeinode) && SyncedBut(sb, b1, n1, i)
  {
    hide GetInode;
    forall j | j in n1 && j != i
      ensures OnDisk(sb, b1, j, n1[j])
    {
      TablePlace(sb, j);
      assert OnDisk(sb, b0, j, n0[j]);
    }
  }

  lemma StartFilled(sb: Super, blocks: seq<Block>, inodes: Inodes, owner: Owners, freeblock: nat, freeinode: nat,
                    i: nat)
    requires Filled(sb, blocks, inodes, owner, freeblock, freeinode, 0, 0) && i in inodes
    ensures Filled(sb, blocks, inodes, owner, freeblock, freeinode, i, inodes[i].size)
    ensures OnDisk(sb, blocks, i, inodes[i]) && Exact(blocks, inodes[i])
  {
    hide Building, Clear, NoHoles, Capped, OnDisk;
  }

  lemma EndFilled(sb: Super, blocks: seq<Block>, inodes: Inodes, owner: Owners, freeblock: nat, freeinode: nat,
                  i: nat, limit: nat)
    requires Filled(sb, blocks, inodes, owner, freeblock, freeinode, i, limit)
    requires i in inodes ==> OnDisk(sb, blocks, i, inodes[i]) && Exact(blocks, inodes[i])
    ensures Filled(sb, blocks, inodes, owner, freeblock, freeinode, 0, 0)
  {
    hide Building, Clear, Exact, Capped, OnDisk;
  }

  lemma ClearKept(sb: Super, blocks: seq<Block>, freeinode: nat, i: nat, data: Block)
    requires Clear(sb, blocks, freeinode) && i < freeinode && TableBlock(sb, i) < |blocks|
    ensures Clear(sb, blocks[TableBlock(sb, i) := data], freeinode)
  {
    assert !Unwritten(sb, TableBlock(sb, i), freeinode);
    hide Unwritten;
  }

  lemma BuildingKept(sb: Super, blocks: seq<Block>, inodes: Inodes, owner: Owners, freeblock: nat, b: nat, data: Block)
    requires Building(sb, blocks, inodes, owner, freeblock) && b < sb.datastart
    ensures b < |blocks| && Building(sb, blocks[b := data], inodes, owner, freeblock)
    ensures SameBytes(blocks, inodes, blocks[b := data], inodes) && SameSlots(blocks, blocks[b := data], inodes)
  {
    SizeFact(sb, blocks, inodes, owner);
    hide Owns, SameBytes, SameSlots;
    MetaWrite(sb, blocks, inodes, owner, b, data);
  }

  /** winode of the inode being filled. */
  lemma StoreFilled(sb: Super, blocks: seq<Block>, inodes: Inodes, owner: Owners, freeblock: nat, freeinode: nat,
                    i: nat, limit: nat)
    requires Filled(sb, blocks, inodes, owner, freeblock, freeinode, i, limit) && i in inodes && FieldsFit(inodes[i])
    ensures TableBlock(sb, i) < |blocks|
    ensures var ib := TableBlock(sb, i);
      var blocks' := blocks[ib := PutInode(blocks[ib], i % IPB, inodes[i])];
      && Filled(sb, blocks', inodes, owner, freeblock, freeinode, i, limit) && OnDisk(sb, blocks', i, inodes[i])
      && SameBytes(blocks, inodes, blocks', inodes) && SameSlots(blocks, blocks', inodes)
  {
    BuildingFacts(sb, blocks, inodes, owner, freeblock);
    TablePlace(sb, i);
    var ib := TableBlock(sb, i);
    hide PutInode, OnDisk, Building, SameBytes, SameSlots, Tight, Clear, FieldsFit, TableBlock;
    BuildingKept(sb, blocks, inodes, owner, freeblock, ib, PutInode(blocks[ib], i % IPB, inodes[i]));
    TableStore(sb, blocks, i, inodes[i]);
    TightSlots(blocks, blocks[ib := PutInode(blocks[ib], i % IPB, inodes[i])], inodes, i, limit);
    ClearKept(sb, blocks, freeinode, i, PutInode(blocks[ib], i % IPB, inodes[i]));
  }

  lemma ResizeFilled(sb: Super, blocks: seq<Block>, inodes: Inodes, owner: Owners, freeblock: nat, freeinode: nat,
                     i: nat, limit: nat, size: nat)
    requires Filled(sb, blocks, inodes, owner, freeblock, freeinode, i, limit) && i in inodes && size <= MAXFILE * BSIZE
    ensures Filled(sb, blocks, inodes[i := inodes[i].(size := size)], owner, freeblock, freeinode, i, limit)
  {
    hide Building, Clear, OnDisk, Tight;
    Resized(sb, blocks, inodes, owner, freeblock, i, size);
    TightResized(blocks, inodes, i, size, limit);
  }

  lemma NewFilled(sb: Super, blocks: seq<Block>, inodes: Inodes, owner: Owners, freeblock: nat, freeinode: nat,
                  ip: Inode)
    requires Filled(sb, blocks, inodes, owner, freeblock, freeinode, 0, 0) && freeinode < TableEnd(sb)
    requires ip.addrs == NoAddrs() && ip.size == 0
    ensures freeinode !in inodes
    ensures Filled(sb, blocks, inodes[freeinode := ip], owner, freeblock, freeinode + 1, freeinode, 0)
    ensures Exact(blocks, ip) && forall j :: j in inodes ==> Sized(inodes[j])
  {
    TightNew(blocks, inodes, freeinode, ip);
    assert forall s: nat :: s < SLOTS ==> Slot(blocks, ip, s) == 0;
    hide Slot, Tight, OnDisk, Owns;
    NewInode(sb, blocks, inodes, owner, freeinode, ip);
  }

  lemma AppendTight(sb: Super, blocks: seq<Block>, inodes: Inodes, owner: Owners, freeblock: nat,
                    i: nat, bn: nat, data: Block, limit: nat)
    requires Building(sb, blocks, inodes, owner, freeblock) && i in inodes && |inodes[i].addrs| == NDIRECT + 1
    requires bn < MAXFILE && Slot(blocks, inodes[i], FileSlot(bn)) != 0 && Tight(blocks, inodes, i, limit)
    ensures Slot(blocks, inodes[i], FileSlot(bn)) < |blocks|
    ensures Tight(blocks[Slot(blocks, inodes[i], FileSlot(bn)) := data], inodes, i, limit)
  {
    SizeFact(sb, blocks, inodes, owner);
    DataSlot(sb, blocks, inodes, owner, i, bn);
    hide Owns, Slot, Tight;
    TightWritten(sb, blocks, inodes, owner, Slot(blocks, inodes[i], FileSlot(bn)), data, i, limit);
  }

  lemma TouchedNone(off: nat)
    ensures Touched(off, 0) == 0
  {
  }

  lemma NewInode(sb: Super, blocks: seq<Block>, inodes: Inodes, owner: Owners, i: nat, ip: Inode)
    requires Owns(sb, blocks, inodes, owner) && i !in inodes && ip.addrs == NoAddrs()
    ensures Owns(sb, blocks, inodes[i := ip], owner)
  {
    var inodes' := inodes[i := ip];
    SizeFact(sb, blocks, inodes, owner);
    assert forall s: nat :: s < SLOTS ==> Slot(blocks, ip, s) == 0;
    hide Slot;
    forall b | b in owner
      ensures OwnerOk(sb, blocks, inodes', b, owner[b])
    {
      assert OwnerOk(sb, blocks, inodes, b, owner[b]);
    }
  }

  lemma IndirectIn(sb: Super, blocks: seq<Block>, inodes: Inodes, owner: Owners, freeblock: nat, i: nat)
    requires Building(sb, blocks, inodes, owner, freeblock) && i in inodes && inodes[i].addrs[NDIRECT] != 0
    ensures sb.datastart <= inodes[i].addrs[NDIRECT] < |blocks|
  {
    IndirectOwned(sb, blocks, inodes, owner, i);
  }

  lemma InImage(sb: Super, blocks: seq<Block>, inodes: Inodes, owner: Owners, freeblock: nat, i: nat, s: nat)
    requires Building(sb, blocks, inodes, owner, freeblock) && i in inodes && s < SLOTS
    requires |inodes[i].addrs| == NDIRECT + 1 && Slot(blocks, inodes[i], s) != 0
    ensures Slot(blocks, inodes[i], s) < |blocks|
  {
    SlotInRange(sb, blocks, inodes, owner, i, s);
  }

  lemma Begin(sb: Super, blocks: seq<Block>, inodes: Inodes, owner: Owners, freeblock: nat, i: nat, data: seq<Byte>,
              w: WriteLog)
    requires Building(sb, blocks, inodes, owner, freeblock) && i in inodes
    requires w == WriteLog(blocks, inodes, i, {}, w.cost)
    ensures WriteInv(w, blocks, inodes, i, inodes[i].size, data, 0)
  {
    hide Owns;
    WriteStart(sb, blocks, inodes, owner, i, inodes[i].size, data, {}, w.cost);
  }

  lemma AppendData(sb: Super, w: WriteLog, blocks: seq<Block>, inodes: Inodes, owner: Owners, freeblock: nat,
                   i: nat, off: nat, src: seq<Byte>, tot: nat, m: nat, b: nat, data: Block)
    requires Building(sb, blocks, inodes, owner, freeblock) && i in inodes && |inodes[i].addrs| == NDIRECT + 1
    requires WriteInv(w, blocks, inodes, i, off, src, tot)
    requires 0 < m && tot + m <= |src| && InBlock(off + tot, m) && (tot == 0 || (off + tot) % BSIZE == 0)
    requires (off + tot) / BSIZE < MAXFILE && b == Slot(blocks, inodes[i], FileSlot((off + tot) / BSIZE)) && b != 0
    requires b < |blocks| && Overlay(blocks[b], data, (off + tot) % BSIZE, src[tot..tot + m])
    ensures Building(sb, blocks[b := data], inodes, owner, freeblock)
    ensures WriteInv(w, blocks[b := data], inodes, i, off, src, tot + m)
  {
    BuildingFacts(sb, blocks, inodes, owner, freeblock);
    hide Owns, WriteInv, Slot;
    WriteChunkData(sb, w, blocks, inodes, owner, i, off, src, tot, m, b, data);
  }

  lemma TouchedGrows(off: nat, a: nat, b: nat)
    requires a <= b
    ensures Touched(off, a) <= Touched(off, b)
  {
  }

  lemma AppendIs(c: seq<Byte>, off: nat, data: seq<Byte>)
    requires off == |c|
    ensures Spliced(c, off, data) == c + data
  {
  }

  lemma Resized(sb: Super, blocks: seq<Block>, inodes: Inodes, owner: Owners, freeblock: nat, i: nat, size: nat)
    requires Building(sb, blocks, inodes, owner, freeblock) && i in inodes && size <= MAXFILE * BSIZE
    ensures Building(sb, blocks, inodes[i := inodes[i].(size := size)], owner, freeblock)
  {
    hide Owns;
    ResizeOwns(sb, blocks, inodes, owner, i, size);
  }
}
