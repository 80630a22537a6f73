/** The file system's block layer as the kernel runs it: bitmap, block map and inode contents updated in
    place. `blocks` is the content that bread returns. */
module Fs {
  import opened Blocks
  import opened Bitmap
  import opened Dinode
  import opened FsModel
  import opened Options

  /** What readi and writei return: a count, -1, the device driver's answer, or a kernel panic. */
  datatype Outcome = Count(n: nat) | Refused | Device | Panic

  function Min(a: nat, b: nat): (r: nat)
  {
    if a < b then a else b
  }

  /** The bitmap block that balloc writes for b, and the state it leaves. */
  function MapBlock(sb: Super, b: nat): (k: nat)
  {
    sb.bmapstart + b / BPB
  }

  function Allocated(sb: Super, blocks: seq<Block>, b: nat): (r: seq<Block>)
    requires MapBlock(sb, b) < |blocks| && b < |blocks|
  {
    blocks[MapBlock(sb, b) := SetBit(blocks[MapBlock(sb, b)], b % BPB)][b := ZeroBlock()]
  }

  predicate IsFree(sb: Super, blocks: seq<Block>, b: nat)
  {
    b < sb.size && !InUse(blocks, sb.bmapstart, b)
  }

  lemma MapInRange(sb: Super, b: nat)
    requires Geometry(sb) && b < sb.size
    ensures MapBlock(sb, b) < sb.datastart
  {
    assert b / BPB <= (sb.size - 1) / BPB;
  }

  ghost predicate SameSlots(blocks: seq<Block>, blocks': seq<Block>, inodes: Inodes)
  {
    && (forall i :: i in inodes ==> |inodes[i].addrs| == NDIRECT + 1)
    && forall i, s: nat :: i in inodes && s < SLOTS ==> Slot(blocks', inodes[i], s) == Slot(blocks, inodes[i], s)
  }

  /** In a consistent state balloc never hands out a metadata block or a block in use, and what it does
      changes no byte of any file; giving the block an owner makes the bitmap right again. */
  lemma AllocSafe(sb: Super, blocks: seq<Block>, inodes: Inodes, owner: Owners, b: nat, p: Place)
    requires Owns(sb, blocks, inodes, owner) && Marked(sb, blocks, owner, {}) && IsFree(sb, blocks, b)
    ensures sb.datastart <= b && b !in owner && MapBlock(sb, b) < sb.datastart
    ensures var blocks' := Allocated(sb, blocks, b);
      && Owns(sb, blocks', inodes, owner) && SameBytes(blocks, inodes, blocks', inodes)
      && Marked(sb, blocks', owner[b := p], {}) && SameSlots(blocks, blocks', inodes) && blocks'[b] == ZeroBlock()
  {
    SizeFact(sb, blocks, inodes, owner);
    MapInRange(sb, b);
    FreeIsData(sb, blocks, inodes, owner, b);
    AllocMarks(sb, blocks, owner, b, p);
    hide Owns, Slot, ByteAt, InUse, SameBytes, Marked, IsFree;
    var k := MapBlock(sb, b);
    var one := blocks[k := SetBit(blocks[k], b % BPB)];
    SlotsSame(sb, blocks, inodes, owner, k, one[k]);
    WriteKeepsOwns(sb, blocks, inodes, owner, k, one[k]);
    QuietWrite(sb, blocks, inodes, owner, k, one[k]);
    SlotsSame(sb, one, inodes, owner, b, ZeroBlock());
    WriteKeepsOwns(sb, one, inodes, owner, b, ZeroBlock());
    QuietWrite(sb, one, inodes, owner, b, ZeroBlock());
    SameBytesTrans(blocks, inodes, one, inodes, one[b := ZeroBlock()], inodes);
  }

  lemma FreeIsData(sb: Super, blocks: seq<Block>, inodes: Inodes, owner: Owners, b: nat)
    requires Owns(sb, blocks, inodes, owner) && Marked(sb, blocks, owner, {}) && IsFree(sb, blocks, b)
    ensures sb.datastart <= b && b !in owner && MapBlock(sb, b) !in owner
  {
    MapInRange(sb, b);
    if MapBlock(sb, b) in owner {
      NotMeta(sb, blocks, inodes, owner, MapBlock(sb, b));
    }
  }

  lemma AllocMarks(sb: Super, blocks: seq<Block>, owner: Owners, b: nat, p: Place)
    requires Geometry(sb) && |blocks| == sb.size && Marked(sb, blocks, owner, {}) && sb.datastart <= b < sb.size
    requires MapBlock(sb, b) < sb.datastart
    ensures Marked(sb, Allocated(sb, blocks, b), owner[b := p], {})
  {
    hide InUse;
    var k := MapBlock(sb, b);
    var one := blocks[k := SetBit(blocks[k], b % BPB)];
    MapUntouched(sb, one, b, ZeroBlock());
    forall c: nat | c < sb.size
      ensures InUse(Allocated(sb, blocks, b), sb.bmapstart, c) <==> c < sb.datastart || c in owner[b := p]
    {
      MarkOne(blocks, sb.bmapstart, b, c);
    }
  }

  lemma OneSlotAfter(blocks: seq<Block>, after: seq<Block>, inodes: Inodes, blocks': seq<Block>, inodes': Inodes,
                     i: nat, s: nat, b: nat)
    requires SameSlots(blocks, after, inodes) && OneSlot(after, inodes, blocks', inodes', i, s, b)
    ensures OneSlot(blocks, inodes, blocks', inodes', i, s, b)
  {
    hide Slot;
  }

  lemma SlotOf(blocks: seq<Block>, after: seq<Block>, inodes: Inodes, i: nat, s: nat)
    requires SameSlots(blocks, after, inodes) && i in inodes && s < SLOTS
    ensures Slot(after, inodes[i], s) == Slot(blocks, inodes[i], s)
  {
  }

  /** Allocating a block into an empty direct slot or the empty indirect slot. */
  lemma AllocAttach(sb: Super, blocks: seq<Block>, inodes: Inodes, owner: Owners, i: nat, s: nat, b: nat)
    requires Owns(sb, blocks, inodes, owner) && Marked(sb, blocks, owner, {}) && IsFree(sb, blocks, b)
    requires i in inodes && s <= NDIRECT && inodes[i].addrs[s] == 0
    ensures sb.datastart <= b && b !in owner && MapBlock(sb, b) < sb.datastart
    ensures var blocks', inodes' := Allocated(sb, blocks, b), WithAddr(inodes, i, s, b);
      var owner' := owner[b := Place(i, s)];
      && Owns(sb, blocks', inodes', owner') && Marked(sb, blocks', owner', {})
      && SameBytes(blocks, inodes, blocks', inodes') && OneSlot(blocks, inodes, blocks', inodes', i, s, b)
  {
    SizeFact(sb, blocks, inodes, owner);
    hide Owns, Slot, ByteAt, InUse, SameBytes, Allocated, OneSlot, SameSlots, Marked;
    AllocSafe(sb, blocks, inodes, owner, b, Place(i, s));
    var blocks', inodes' := Allocated(sb, blocks, b), WithAddr(inodes, i, s, b);
    Attach(sb, blocks', inodes, owner, i, s, b);
    EmptySlot(blocks', inodes[i], s);
    SizeFact(sb, blocks', inodes', owner[b := Place(i, s)]);
    QuietAttach(sb, blocks', inodes, blocks', inodes', owner, i, s, b);
    SameBytesTrans(blocks, inodes, blocks', inodes, blocks', inodes');
    OneSlotAfter(blocks, blocks', inodes, blocks', inodes', i, s, b);
  }

  lemma EmptySlot(blocks: seq<Block>, ip: Inode, s: nat)
    requires |ip.addrs| == NDIRECT + 1 && s <= NDIRECT
    ensures Slot(blocks, ip, s) == ip.addrs[s]
  {
  }

  /** The blocks after balloc and the write of the new entry into indirect block d. */
  function EntryWritten(sb: Super, blocks: seq<Block>, d: nat, e: nat, b: nat): (r: seq<Block>)
    requires MapBlock(sb, b) < |blocks| && b < |blocks| && d < |blocks| && e < WORDS && b < UINT_LIMIT
  {
    var after := Allocated(sb, blocks, b);
    after[d := PutWord(after[d], e, b)]
  }

  /** Allocating a block into an empty entry of an indirect block. */
  lemma AllocEntry(sb: Super, blocks: seq<Block>, inodes: Inodes, owner: Owners, i: nat, s: nat, b: nat)
    requires Owns(sb, blocks, inodes, owner) && Marked(sb, blocks, owner, {}) && IsFree(sb, blocks, b)
    requires i in inodes && NDIRECT < s < SLOTS && inodes[i].addrs[NDIRECT] != 0 && Slot(blocks, inodes[i], s) == 0
    ensures sb.datastart <= b < UINT_LIMIT && b !in owner && MapBlock(sb, b) < sb.datastart
    ensures sb.datastart <= inodes[i].addrs[NDIRECT] < |blocks|
    ensures var blocks' := EntryWritten(sb, blocks, inodes[i].addrs[NDIRECT], s - NDIRECT - 1, b);
      var owner' := owner[b := Place(i, s)];
      && Owns(sb, blocks', inodes, owner') && Marked(sb, blocks', owner', {})
      && SameBytes(blocks, inodes, blocks', inodes) && OneSlot(blocks, inodes, blocks', inodes, i, s, b)
  {
    SizeFact(sb, blocks, inodes, owner);
    IndirectOwned(sb, blocks, inodes, owner, i);
    var d := inodes[i].addrs[NDIRECT];
    hide Owns, Slot, ByteAt, InUse, SameBytes, Allocated, OneSlot, SameSlots;
    AllocSafe(sb, blocks, inodes, owner, b, Place(i, s));
    var after := Allocated(sb, blocks, b);
    var blocks' := after[d := PutWord(after[d], s - NDIRECT - 1, b)];
    SizeFact(sb, after, inodes, owner);
    SlotOf(blocks, after, inodes, i, s);
    AttachEntry(sb, after, inodes, owner, i, s, b);
    WriteKeepsMarked(sb, after, owner[b := Place(i, s)], {}, d, blocks'[d]);
    hide Marked;
    QuietAttach(sb, after, inodes, blocks', inodes, owner, i, s, b);
    SameBytesTrans(blocks, inodes, after, inodes, blocks', inodes);
    OneSlotAfter(blocks, after, inodes, blocks', inodes, i, s, b);
  }

  lemma NotMeta(sb: Super, blocks: seq<Block>, inodes: Inodes, owner: Owners, k: nat)
    requires Owns(sb, blocks, inodes, owner)
    ensures k in owner ==> sb.datastart <= k
  {
    if k in owner {
      assert OwnerOk(sb, blocks, inodes, k, owner[k]);
    }
  }

  lemma MapUntouched(sb: Super, blocks: seq<Block>, b: nat, data: Block)
    requires Geometry(sb) && |blocks| == sb.size && sb.datastart <= b < sb.size
    ensures forall c: nat :: c < sb.size ==>
      (InUse(blocks[b := data], sb.bmapstart, c) <==> InUse(blocks, sb.bmapstart, c))
  {
    forall c: nat | c < sb.size
      ensures InUse(blocks[b := data], sb.bmapstart, c) <==> InUse(blocks, sb.bmapstart, c)
    {
      MapInRange(sb, c);
    }
  }

  /** Inode i may have gained blocks; no block moved, and no other inode or field changed. */
  ghost predicate Grew(blocks: seq<Block>, inodes: Inodes, blocks': seq<Block>, inodes': Inodes, i: nat)
  {
    && i in inodes && i in inodes' && |inodes[i].addrs| == |inodes'[i].addrs| == NDIRECT + 1
    && inodes' == inodes[i := inodes[i].(addrs := inodes'[i].addrs)]
    && forall t: nat :: t < SLOTS && Slot(blocks, inodes[i], t) != 0 ==>
         Slot(blocks', inodes'[i], t) == Slot(blocks, inodes[i], t)
  }

  lemma GrewTrans(b0: seq<Block>, n0: Inodes, b1: seq<Block>, n1: Inodes, b2: seq<Block>, n2: Inodes, i: nat)
    requires Grew(b0, n0, b1, n1, i) && Grew(b1, n1, b2, n2, i)
    ensures Grew(b0, n0, b2, n2, i)
  {
    hide Slot;
  }

  lemma OneSlotGrew(blocks: seq<Block>, inodes: Inodes, blocks': seq<Block>, inodes': Inodes, i: nat, s: nat, b: nat)
    requires OneSlot(blocks, inodes, blocks', inodes', i, s, b) && i in inodes && s < SLOTS
    requires Slot(blocks, inodes[i], s) == 0 && inodes' == inodes[i := inodes[i].(addrs := inodes'[i].addrs)]
    ensures Grew(blocks, inodes, blocks', inodes', i) && Slot(blocks', inodes'[i], s) == b
  {
    hide Slot;
  }

  lemma NotFreeOutside(sb: Super, blocks: seq<Block>)
    ensures forall b: nat :: IsFree(sb, blocks, b) ==> b < sb.size
  {
  }

  lemma BitIs(sb: Super, blocks: seq<Block>, b: nat, bi: nat)
    requires Geometry(sb) && |blocks| == sb.size && b % BPB == 0 && bi < BPB && b + bi < sb.size
    ensures MapBlock(sb, b) < sb.datastart && MapBlock(sb, b + bi) == MapBlock(sb, b) && (b + bi) % BPB == bi
    ensures IsFree(sb, blocks, b + bi) <==> !GetBit(blocks[MapBlock(sb, b)], bi)
  {
    MapInRange(sb, b + bi);
    assert (b + bi) / BPB == b / BPB;
  }

  // ---------- Chunks ----------

  /** A chunk that stays within one block. */
  predicate InBlock(off: nat, m: nat)
  {
    off % BSIZE + m <= BSIZE
  }

  lemma ChunkIndex(off: nat, m: nat, x: nat)
    requires InBlock(off, m) && x < m
    ensures (off + x) / BSIZE == off / BSIZE && (off + x) % BSIZE == off % BSIZE + x
  {
  }

  /** The bytes of a chunk of a mapped block are the bytes of the file. */
  lemma ChunkBytes(blocks: seq<Block>, ip: Inode, off: nat, m: nat, b: nat, chunk: seq<Byte>)
    requires |ip.addrs| == NDIRECT + 1 && InBlock(off, m) && off / BSIZE < MAXFILE
    requires b == Slot(blocks, ip, FileSlot(off / BSIZE)) && 0 < b < |blocks|
    requires chunk == blocks[b][off % BSIZE..off % BSIZE + m]
    ensures off + m <= MAXFILE * BSIZE && forall x :: 0 <= x < m ==> chunk[x] == ByteAt(blocks, ip, off + x)
  {
    forall x | 0 <= x < m
      ensures chunk[x] == ByteAt(blocks, ip, off + x)
    {
      ChunkIndex(off, m, x);
    }
  }

  /** The log blocks that mapping one file block may add: a bitmap block for each block allocated, the
      blocks themselves, and the indirect block `ind`. */
  ghost predicate MapCost(before: set<nat>, logged: set<nat>, ind: nat, bn: nat, wasMapped: bool, had: nat, b: nat,
                          maps: set<nat>)
  {
    && |maps| <= (if wasMapped then 0 else 1) + (if bn < NDIRECT || had != 0 then 0 else 1)
    && logged <= before + maps + {b} + (if ind == 0 then {} else {ind})
    && (had != 0 ==> ind == had)
    && (had == 0 ==> (ind != 0 <==> bn >= NDIRECT))
  }

  /** The cost of the two halves of mapping a block beyond the direct ones. */
  lemma MapIndirect(l0: set<nat>, l1: set<nat>, l2: set<nat>, ind: nat, bn: nat, had: nat, b: nat,
                    maps: set<nat>, more: set<nat>, wasMapped: bool)
    requires bn >= NDIRECT && ind != 0 && |maps| <= (if had == 0 then 1 else 0)
    requires |more| <= (if wasMapped then 0 else 1)
    requires l1 <= l0 + maps + {ind} && (had != 0 ==> l1 == l0 && ind == had)
    requires l2 <= l1 + more + {b, ind}
    ensures MapCost(l0, l2, ind, bn, wasMapped, had, b, maps + more)
  {
    UnionSize(maps, more);
  }

  /** Between two states of a transaction: every block that changed is logged, and no block before the bitmap is. */
  ghost predicate Kept(sb: Super, b0: seq<Block>, l0: set<nat>, b1: seq<Block>, l1: set<nat>)
  {
    && |b1| == |b0| && l0 <= l1
    && (forall b: nat :: b < |b0| && b1[b] != b0[b] ==> b in l1 && sb.bmapstart <= b)
    && (forall b :: b in l1 ==> b in l0 || sb.bmapstart <= b < |b0|)
  }

  lemma KeptSelf(sb: Super, b: seq<Block>, l: set<nat>)
    ensures Kept(sb, b, l, b, l)
  {
  }

  lemma KeptTrans(sb: Super, b0: seq<Block>, l0: set<nat>, b1: seq<Block>, l1: set<nat>, b2: seq<Block>, l2: set<nat>)
    requires Kept(sb, b0, l0, b1, l1) && Kept(sb, b1, l1, b2, l2)
    ensures Kept(sb, b0, l0, b2, l2)
  {
    forall b: nat | b < |b0| && b2[b] != b0[b]
      ensures b in l2 && sb.bmapstart <= b
    {
      assert b1[b] != b0[b] || b2[b] != b1[b];
    }
  }

  lemma KeptOne(sb: Super, b0: seq<Block>, l0: set<nat>, b1: seq<Block>, l1: set<nat>, b: nat, data: Block)
    requires Kept(sb, b0, l0, b1, l1) && sb.bmapstart <= b < |b1|
    ensures Kept(sb, b0, l0, b1[b := data], l1 + {b})
  {
  }

  lemma KeptAlloc(sb: Super, blocks: seq<Block>, l: set<nat>, b: nat)
    requires MapBlock(sb, b) < |blocks| && b < |blocks| && sb.bmapstart <= b
    ensures Kept(sb, blocks, l, Allocated(sb, blocks, b), l + {MapBlock(sb, b), b})
  {
  }

  /** The inode table holds the in-memory inodes. */
  ghost predicate Synced(sb: Super, blocks: seq<Block>, inodes: Inodes)
  {
    forall i :: i in inodes ==> OnDisk(sb, blocks, i, inodes[i])
  }

  /** The table has ip as inode i. */
  ghost predicate OnDisk(sb: Super, blocks: seq<Block>, i: nat, ip: Inode)
  {
    TableBlock(sb, i) < |blocks| && GetInode(blocks[TableBlock(sb, i)], i % IPB) == ip
  }

  /** Every block has one owner, the bitmap is exact, and every inode has its place in the table. */
  ghost predicate Consistent(sb: Super, blocks: seq<Block>, inodes: Inodes, owner: Owners)
  {
    && Owns(sb, blocks, inodes, owner) && Marked(sb, blocks, owner, {})
    && (forall i :: i in inodes ==> Storable(sb, i, inodes[i]))
  }

  class FileSystem {
    const sb: Super
    var blocks: seq<Block>
    var inodes: Inodes                // the in-memory inodes
    ghost var owner: Owners
    ghost var logged: set<nat>        // the blocks log_write has recorded in this transaction

    ghost predicate Valid()
      reads this
    {
      Consistent(sb, blocks, inodes, owner)
    }

    /** A file system that has just been booted: ilock reads the inodes from the table. */
    constructor (sb: Super, blocks: seq<Block>, ninodes: nat, ghost inodes: Inodes, ghost owner: Owners)
      requires Consistent(sb, blocks, inodes, owner) && Synced(sb, blocks, inodes)
      requires forall i: nat :: i in inodes <==> 0 < i <= ninodes
      ensures Valid() && this.sb == sb && this.blocks == blocks && this.inodes == inodes && this.owner == owner
    {
      this.sb, this.blocks, this.inodes, this.owner, logged := sb, blocks, map[], owner, {};
      new;
      hide Consistent, GetInode;
      for i := 1 to ninodes + 1
        invariant this.blocks == blocks && this.owner == owner
        invariant forall j: nat :: j in this.inodes <==> 0 < j < i
        invariant forall j :: j in this.inodes ==> this.inodes[j] == inodes[j]
      {
        assert OnDisk(sb, blocks, i, inodes[i]);
        this.inodes := this.inodes[i := GetInode(blocks[TableBlock(sb, i)], i % IPB)];
      }
      assert this.inodes == inodes;
    }

    /** balloc: the first free block, marked and zeroed; None is the "out of blocks" panic. */
    method Balloc() returns (r: Option<nat>)
      requires WellFormed(sb, blocks, inodes)
      modifies this`blocks, this`logged
      ensures r.None? ==> blocks == old(blocks) && logged == old(logged) && forall b: nat :: !IsFree(sb, blocks, b)
      ensures r.Some? ==>
        && IsFree(sb, old(blocks), r.value) && (forall c: nat :: c < r.value ==> !IsFree(sb, old(blocks), c))
        && MapBlock(sb, r.value) < |old(blocks)| && blocks == Allocated(sb, old(blocks), r.value)
        && logged == old(logged) + {MapBlock(sb, r.value), r.value}
    {
      hide IsFree, GetBit, MapBlock;
      NotFreeOutside(sb, blocks);
      var b := 0;
      while b < sb.size
        invariant blocks == old(blocks) && logged == old(logged)
        invariant b % BPB == 0
        invariant forall c: nat :: c < b ==> !IsFree(sb, blocks, c)
      {
        BitIs(sb, blocks, b, 0);
        var bp := blocks[MapBlock(sb, b)];
        var bi := 0;
        while bi < BPB && b + bi < sb.size
          invariant 0 <= bi <= BPB && blocks == old(blocks) && logged == old(logged)
          invariant forall c: nat :: c < b + bi ==> !IsFree(sb, blocks, c)
        {
          BitIs(sb, blocks, b, bi);
          if !GetBit(bp, bi) {
            blocks := blocks[MapBlock(sb, b) := SetBit(bp, bi)];
            logged := logged + {MapBlock(sb, b)};
            blocks := blocks[b + bi := ZeroBlock()];
            logged := logged + {b + bi};
            return Some(b + bi);
          }
          bi := bi + 1;
        }
        b := b + BPB;
      }
      r := None;
    }

    /** bfree; false is the "freeing free block" panic. */
    method Bfree(b: nat) returns (ok: bool)
      requires WellFormed(sb, blocks, inodes) && b < sb.size
      modifies this`blocks, this`logged
      ensures ok == InUse(old(blocks), sb.bmapstart, b) && MapBlock(sb, b) < sb.datastart
      ensures blocks == if ok then
        old(blocks)[MapBlock(sb, b) := ClearBit(old(blocks)[MapBlock(sb, b)], b % BPB)] else old(blocks)
      ensures logged == old(logged) + (if ok then {MapBlock(sb, b)} else {})
    {
      MapInRange(sb, b);
      var k := MapBlock(sb, b);
      ok := GetBit(blocks[k], b % BPB);
      if ok {
        blocks := blocks[k := ClearBit(blocks[k], b % BPB)];
        logged := logged + {k};
      }
    }

    /** A new block for an empty direct slot, or for the indirect slot, of inode i. */
    method AllocSlot(i: nat, s: nat) returns (r: Option<nat>)
      requires Valid() && i in inodes && s <= NDIRECT && inodes[i].addrs[s] == 0
      modifies this`blocks, this`inodes, this`owner, this`logged
      ensures r.None? ==> forall b: nat :: !IsFree(sb, blocks, b)
      ensures r.Some? ==>
        && Valid() && r.value != 0 && inodes == WithAddr(old(inodes), i, s, r.value)
        && SameBytes(old(blocks), old(inodes), blocks, inodes)
        && Grew(old(blocks), old(inodes), blocks, inodes, i) && Slot(blocks, inodes[i], s) == r.value
        && logged == old(logged) + {MapBlock(sb, r.value), r.value}
        && Kept(sb, old(blocks), old(logged), blocks, logged)
    {
      hide Owns, Marked, Slot, SameBytes, OneSlot, Allocated, Grew, Kept;
      SizeFact(sb, blocks, inodes, owner);
      ghost var b0, n0 := blocks, inodes;
      r := Balloc();
      if r.Some? {
        FreeIsData(sb, b0, n0, owner, r.value);
        KeptAlloc(sb, b0, old(logged), r.value);
        AllocAttach(sb, b0, n0, owner, i, s, r.value);
        inodes := inodes[i := inodes[i].(addrs := inodes[i].addrs[s := r.value])];
        owner := owner[r.value := Place(i, s)];
        EmptySlot(b0, n0[i], s);
        OneSlotGrew(b0, n0, blocks, inodes, i, s, r.value);
      }
    }

    /** A new block for an empty entry of the indirect block of inode i, which is logged. */
    method AllocIndirectEntry(i: nat, s: nat) returns (r: Option<nat>)
      requires Valid() && i in inodes && NDIRECT < s < SLOTS && inodes[i].addrs[NDIRECT] != 0
      requires Slot(blocks, inodes[i], s) == 0
      modifies this`blocks, this`owner, this`logged
      ensures r.None? ==> forall b: nat :: !IsFree(sb, blocks, b)
      ensures r.Some? ==>
        && Valid() && r.value != 0
        && SameBytes(old(blocks), old(inodes), blocks, inodes)
        && Grew(old(blocks), old(inodes), blocks, inodes, i) && Slot(blocks, inodes[i], s) == r.value
        && logged == old(logged) + {MapBlock(sb, r.value), r.value, inodes[i].addrs[NDIRECT]}
        && Kept(sb, old(blocks), old(logged), blocks, logged)
    {
      hide Owns, Marked, Slot, SameBytes, OneSlot, Grew, Kept;
      SizeFact(sb, blocks, inodes, owner);
      var addr := inodes[i].addrs[NDIRECT];
      ghost var b0 := blocks;
      r := Balloc();
      if r.Some? {
        FreeIsData(sb, b0, inodes, owner, r.value);
        KeptAlloc(sb, b0, old(logged), r.value);
        IndirectOwned(sb, b0, inodes, owner, i);
        AllocEntry(sb, b0, inodes, owner, i, s, r.value);
        KeptOne(sb, b0, old(logged), blocks, logged, addr, PutWord(blocks[addr], s - NDIRECT - 1, r.value));
        blocks := blocks[addr := PutWord(blocks[addr], s - NDIRECT - 1, r.value)];
        logged := logged + {addr};
        owner := owner[r.value := Place(i, s)];
        OneSlotGrew(b0, inodes, blocks, inodes, i, s, r.value);
      }
    }

    /** bmap: the bn-th block of the file, allocated if there is none. No byte of any file changes. */
    method Bmap(i: nat, bn: nat) returns (r: Option<nat>, ghost maps: set<nat>)
      requires Valid() && i in inodes
      modifies this`blocks, this`inodes, this`owner, this`logged
      ensures bn < MAXFILE && Slot(old(blocks), old(inodes)[i], FileSlot(bn)) != 0 ==> r.Some?
      ensures r.None? ==> bn >= MAXFILE || forall b: nat :: !IsFree(sb, blocks, b)
      ensures r.Some? ==>
        && Valid() && bn < MAXFILE && r.value != 0
        && SameBytes(old(blocks), old(inodes), blocks, inodes)
        && Grew(old(blocks), old(inodes), blocks, inodes, i) && Slot(blocks, inodes[i], FileSlot(bn)) == r.value
        && (Slot(old(blocks), old(inodes)[i], FileSlot(bn)) != 0 ==>
              blocks == old(blocks) && inodes == old(inodes) && owner == old(owner) && logged == old(logged))
        && MapCost(old(logged), logged, inodes[i].addrs[NDIRECT], bn,
                   Slot(old(blocks), old(inodes)[i], FileSlot(bn)) != 0, old(inodes)[i].addrs[NDIRECT], r.value, maps)
        && Kept(sb, old(blocks), old(logged), blocks, logged)
    {
      hide Owns, Marked, Slot, SameBytes, Grew, IsFree, MapBlock, Kept;
      KeptSelf(sb, blocks, logged);
      SizeFact(sb, blocks, inodes, owner);
      if bn < MAXFILE {
        SlotEquals(blocks, inodes[i], bn);
      }
      StartsSame(blocks, inodes, i);
      maps := {};
      if bn < NDIRECT {
        var addr := inodes[i].addrs[bn];
        if addr == 0 {
          r := AllocSlot(i, bn);
          if r.Some? {
            maps := {MapBlock(sb, r.value)};
          }
        } else {
          r := Some(addr);
        }
      } else if bn - NDIRECT < NINDIRECT {
        r, maps := BmapIndirect(i, bn);
      } else {
        r := None;
      }
    }

    /** Loading the indirect block, allocated if there is none. */
    method LoadIndirect(i: nat) returns (ok: bool, ghost maps: set<nat>)
      requires Valid() && i in inodes
      modifies this`blocks, this`inodes, this`owner, this`logged
      ensures old(inodes)[i].addrs[NDIRECT] != 0 ==> ok && unchanged(this) && maps == {}
      ensures !ok ==> forall b: nat :: !IsFree(sb, blocks, b)
      ensures ok ==>
        && Valid() && i in inodes && SameBytes(old(blocks), old(inodes), blocks, inodes)
        && Grew(old(blocks), old(inodes), blocks, inodes, i) && inodes[i].addrs[NDIRECT] != 0
        && |maps| <= 1 && logged <= old(logged) + maps + {inodes[i].addrs[NDIRECT]}
        && Kept(sb, old(blocks), old(logged), blocks, logged)
    {
      hide Owns, Marked, Slot, SameBytes, Grew, IsFree, MapBlock, Kept;
      KeptSelf(sb, blocks, logged);
      SizeFact(sb, blocks, inodes, owner);
      StartsSame(blocks, inodes, i);
      ok, maps := true, {};
      if inodes[i].addrs[NDIRECT] == 0 {
        var d := AllocSlot(i, NDIRECT);
        if d.None? {
          return false, {};
        }
        maps := {MapBlock(sb, d.value)};
      }
    }

    /** The second half of bmap: load the indirect block, then its entry, allocated if there is none. */
    method BmapIndirect(i: nat, bn: nat) returns (r: Option<nat>, ghost maps: set<nat>)
      requires Valid() && i in inodes && NDIRECT <= bn < MAXFILE
      modifies this`blocks, this`inodes, this`owner, this`logged
      ensures Slot(old(blocks), old(inodes)[i], FileSlot(bn)) != 0 ==> r.Some?
      ensures r.None? ==> forall b: nat :: !IsFree(sb, blocks, b)
      ensures r.Some? ==>
        && Valid() && r.value != 0
        && SameBytes(old(blocks), old(inodes), blocks, inodes)
        && Grew(old(blocks), old(inodes), blocks, inodes, i) && Slot(blocks, inodes[i], FileSlot(bn)) == r.value
        && (Slot(old(blocks), old(inodes)[i], FileSlot(bn)) != 0 ==>
              blocks == old(blocks) && inodes == old(inodes) && owner == old(owner) && logged == old(logged))
        && MapCost(old(logged), logged, inodes[i].addrs[NDIRECT], bn,
                   Slot(old(blocks), old(inodes)[i], FileSlot(bn)) != 0, old(inodes)[i].addrs[NDIRECT], r.value, maps)
        && Kept(sb, old(blocks), old(logged), blocks, logged)
    {
      hide Owns, Marked, Slot, SameBytes, Grew, IsFree, MapBlock, Kept, MapCost;
      SizeFact(sb, blocks, inodes, owner);
      SlotEquals(blocks, inodes[i], bn);
      ghost var b0, n0, had := blocks, inodes, inodes[i].addrs[NDIRECT];
      var ok;
      ok, maps := LoadIndirect(i);
      if !ok {
        return None, maps;
      }
      ghost var b1, n1, l1 := blocks, inodes, logged;
      SizeFact(sb, blocks, inodes, owner);
      SlotEquals(blocks, inodes[i], bn);
      IndirectOwned(sb, blocks, inodes, owner, i);
      SlotKept(b0, n0, b1, n1, i, FileSlot(bn));
      var addr := GetWord(blocks[inodes[i].addrs[NDIRECT]], bn - NDIRECT);
      if addr != 0 {
        MapIndirect(old(logged), l1, logged, inodes[i].addrs[NDIRECT], bn, had, addr, maps, {}, had != 0);
        return Some(addr), maps;
      }
      r := AllocIndirectEntry(i, FileSlot(bn));
      if r.Some? {
        SameBytesTrans(b0, n0, b1, n1, blocks, inodes);
        GrewTrans(b0, n0, b1, n1, blocks, inodes, i);
        KeptTrans(sb, b0, old(logged), b1, l1, blocks, logged);
        MapIndirect(old(logged), l1, logged, inodes[i].addrs[NDIRECT], bn, had, r.value, maps, {MapBlock(sb, r.value)},
                    false);
        maps := maps + {MapBlock(sb, r.value)};
      }
    }

    /** One round of readi's loop: at most n bytes at `at`, up to the end of its block. A missing block is
        allocated, which outside a transaction is the "log_write outside of trans" panic. */
    method ReadChunk(i: nat, at: nat, n: nat, inTrans: bool) returns (ok: bool, chunk: seq<Byte>)
      requires Valid() && i in inodes && at < inodes[i].size && n > 0
      modifies this`blocks, this`inodes, this`owner, this`logged
      ensures at / BSIZE < MAXFILE
      ensures Slot(old(blocks), old(inodes)[i], FileSlot(at / BSIZE)) != 0 ==> ok && unchanged(this)
      ensures ok && !inTrans ==> Slot(old(blocks), old(inodes)[i], FileSlot(at / BSIZE)) != 0
      ensures !ok && inTrans ==> forall b: nat :: !IsFree(sb, blocks, b)
      ensures ok ==>
        && Valid() && i in inodes && SameBytes(old(blocks), old(inodes), blocks, inodes)
        && Grew(old(blocks), old(inodes), blocks, inodes, i)
        && 0 < |chunk| <= n && InBlock(at, |chunk|) && (|chunk| == n || at % BSIZE + |chunk| == BSIZE)
        && BytesAre(blocks, inodes[i], at, chunk)
    {
      hide Owns, Marked, Slot, SameBytes, Grew, MapCost, NoHoles, ByteAt, IsFree, Kept;
      BlockMapped(blocks, inodes[i], at);
      chunk := [];
      if !inTrans && Slot(blocks, inodes[i], FileSlot(at / BSIZE)) == 0 {
        return false, chunk;
      }
      ghost var maps, b1, n1 := {}, blocks, inodes;
      var b;
      b, maps := Bmap(i, at / BSIZE);
      if b.None? {
        return false, chunk;
      }
      FromGrew(b1, n1, blocks, inodes, i);
      SlotInRange(sb, blocks, inodes, owner, i, FileSlot(at / BSIZE));
      var m := Min(n, BSIZE - at % BSIZE);
      chunk := blocks[b.value][at % BSIZE..at % BSIZE + m];
      ChunkBytes(blocks, inodes[i], at, m, b.value, chunk);
      ok := true;
    }

    /** readi: exactly the bytes of the file from `off`, clipped to its size. Reading changes no byte of any
        file, and it changes nothing at all outside a transaction, where a hole is a panic, or on a file without
        holes. */
    method Readi(i: nat, off: nat, n: nat, inTrans: bool) returns (r: Outcome, dst: seq<Byte>)
      requires Valid() && i in inodes && off < UINT_LIMIT && n < UINT_LIMIT
      modifies this`blocks, this`inodes, this`owner, this`logged
      ensures old(inodes)[i].kind == 3 <==> r == Device
      ensures r == Refused <==> old(inodes)[i].kind != T_DEV && (off > old(inodes)[i].size || off + n >= UINT_LIMIT)
      ensures r.Count? ==>
        && Valid() && r.n == Min(n, old(inodes)[i].size - off)
        && dst == Contents(old(blocks), old(inodes)[i])[off..off + r.n]
        && SameBytes(old(blocks), old(inodes), blocks, inodes) && Grew(old(blocks), old(inodes), blocks, inodes, i)
      ensures r == Panic ==>
        !NoHoles(old(blocks), old(inodes)[i]) && (inTrans ==> forall b: nat :: !IsFree(sb, blocks, b))
      ensures r.Count? && (!inTrans || NoHoles(old(blocks), old(inodes)[i])) ==> unchanged(this)
      ensures r.Count? && !inTrans ==> RangeMapped(blocks, inodes[i], off, r.n)
    {
      hide Owns, Marked, Slot, SameBytes, Grew, NoHoles, Contents, IsFree, RangeMapped, BytesAre;
      SizeFact(sb, blocks, inodes, owner);
      StartsSame(blocks, inodes, i);
      dst := [];
      if inodes[i].kind == T_DEV {
        return Device, dst;
      }
      if off > inodes[i].size || (off + n) % UINT_LIMIT < off {
        return Refused, dst;
      }
      var count := if off + n > inodes[i].size then inodes[i].size - off else n;
      ghost var b0, n0, whole := blocks, inodes, !inTrans || NoHoles(blocks, inodes[i]);
      ReadStart(b0, n0[i], off);
      var tot := 0;
      while tot < count
        invariant tot <= count && off + count <= n0[i].size && |dst| == tot
        invariant Valid() && SameBytes(b0, n0, blocks, inodes) && Grew(b0, n0, blocks, inodes, i)
        invariant BytesAre(b0, n0[i], off, dst)
        invariant whole ==> blocks == b0 && inodes == n0 && owner == old(owner) && logged == old(logged)
        invariant !inTrans ==> RangeMapped(b0, n0[i], off, tot)
        decreases count - tot
      {
        FromGrew(b0, n0, blocks, inodes, i);
        BlockMapped(b0, n0[i], off + tot);
        SlotKept(b0, n0, blocks, inodes, i, FileSlot((off + tot) / BSIZE));
        ghost var b1, n1 := blocks, inodes;
        var ok, chunk := ReadChunk(i, off + tot, count - tot, inTrans);
        if !ok {
          return Panic, dst;
        }
        SameBytesTrans(b0, n0, b1, n1, blocks, inodes);
        GrewTrans(b0, n0, b1, n1, blocks, inodes, i);
        CopyChunk(b0, n0, blocks, inodes, i, off, dst, chunk);
        if !inTrans {
          RangeMore(b0, n0[i], off, tot, |chunk|);
        }
        dst := dst + chunk;
        tot := tot + |chunk|;
      }
      r := Count(count);
      SliceIs(b0, n0[i], off, dst);
    }

    /** iupdate: the inode in memory becomes the inode on disk. No other inode on disk, no byte of any file and
        nobody's blocks change. */
    method Iupdate(i: nat)
      requires Valid() && i in inodes
      modifies this`blocks, this`logged
      ensures Valid() && OnDisk(sb, blocks, i, inodes[i])
      ensures forall j, ip :: j != i && OnDisk(sb, old(blocks), j, ip) ==> OnDisk(sb, blocks, j, ip)
      ensures SameBytes(old(blocks), inodes, blocks, inodes) && SameSlots(old(blocks), blocks, inodes)
      ensures logged == old(logged) + {TableBlock(sb, i)} && |blocks| == |old(blocks)|
      ensures forall b: nat :: b < |blocks| && b != TableBlock(sb, i) ==> blocks[b] == old(blocks)[b]
    {
      hide Owns, Marked, SameBytes, SameSlots, OnDisk;
      var ib := TableBlock(sb, i);
      AddrsFit(sb, blocks, inodes, owner, i);
      SizeFact(sb, blocks, inodes, owner);
      TableStore(sb, blocks, i, inodes[i]);
      MetaWrite(sb, blocks, inodes, owner, ib, PutInode(blocks[ib], i % IPB, inodes[i]));
      TableKeepsMarked(sb, blocks, owner, ib, PutInode(blocks[ib], i % IPB, inodes[i]));
      blocks := blocks[ib := PutInode(blocks[ib], i % IPB, inodes[i])];
      logged := logged + {ib};
    }

    /** One round of writei's loop: map the block under `off + tot` and copy the part of src that falls in it. */
    method WriteChunk(i: nat, src: seq<Byte>, off: nat, tot: nat, ghost w: WriteLog)
      returns (ok: bool, m: nat, ghost cost: Cost)
      requires Valid() && i in inodes && tot < |src| && off + |src| <= MAXFILE * BSIZE
      requires WriteInv(w, blocks, inodes, i, off, src, tot) && (tot == 0 || (off + tot) % BSIZE == 0)
      requires w.Whole() ==> CostInv(w.logged, logged, off, tot, w.cost, inodes[i].addrs[NDIRECT])
      modifies this`blocks, this`inodes, this`owner, this`logged
      ensures !ok ==> forall b: nat :: !IsFree(sb, blocks, b)
      ensures ok ==>
        && Valid() && i in inodes && 0 < m && tot + m <= |src|
        && WriteInv(w, blocks, inodes, i, off, src, tot + m) && (tot + m == |src| || (off + tot + m) % BSIZE == 0)
        && (w.Whole() ==> CostInv(w.logged, logged, off, tot + m, cost, inodes[i].addrs[NDIRECT]))
        && (w.Whole() && off + tot < w.inodes[i].size ==> inodes == old(inodes))
        && Kept(sb, old(blocks), old(logged), blocks, logged)
    {
      hide Owns, Marked, Slot, SameBytes, Grew, MapCost, ByteAt, WriteInv, CostInv, IsFree, NoHoles, Kept;
      var at := off + tot;
      ghost var b1, n1, l1 := blocks, inodes, logged;
      WriteFacts(w, blocks, inodes, i, off, src, tot);
      ghost var maps;
      var b;
      b, maps := Bmap(i, at / BSIZE);
      if b.None? {
        return false, 0, w.cost;
      }
      FromGrew(b1, n1, blocks, inodes, i);
      WriteMapped(w, b1, n1, blocks, inodes, i, off, src, tot);
      m := Min(|src| - tot, BSIZE - at % BSIZE);
      SlotInRange(sb, blocks, inodes, owner, i, FileSlot(at / BSIZE));
      var bp := blocks[b.value];
      var data := bp[..at % BSIZE] + src[tot..tot + m] + bp[at % BSIZE + m..];
      WriteData(sb, w, blocks, inodes, owner, i, off, src, tot, m, b.value, data);
      cost := w.cost;
      if w.Whole() {
        ghost var had, ind := n1[i].addrs[NDIRECT], inodes[i].addrs[NDIRECT];
        CostStep(w.logged, l1, off, tot, m, w.cost, had, logged, ind, at / BSIZE,
                 Slot(b1, n1[i], FileSlot(at / BSIZE)) != 0, b.value, maps);
        cost := Cost(w.cost.data + {b.value}, w.cost.maps + maps, w.cost.it + 1, w.cost.grew || (had == 0 && ind != 0));
      }
      KeptOne(sb, b1, l1, blocks, logged, b.value, data);
      blocks := blocks[b.value := data];
      logged := logged + {b.value};
      ok := true;
    }

    /** The loop of writei. */
    method WriteLoop(i: nat, src: seq<Byte>, off: nat) returns (ok: bool, ghost cost: Cost)
      requires Valid() && i in inodes && off <= inodes[i].size && off + |src| <= MAXFILE * BSIZE
      modifies this`blocks, this`inodes, this`owner, this`logged
      ensures !ok ==> forall b: nat :: !IsFree(sb, blocks, b)
      ensures ok ==>
        && Valid() && i in inodes
        && WriteInv(WriteLog(old(blocks), old(inodes), i, old(logged), cost), blocks, inodes, i, off, src, |src|)
        && (NoHoles(old(blocks), old(inodes)[i]) ==>
              CostInv(old(logged), logged, off, |src|, cost, inodes[i].addrs[NDIRECT]))
        && (NoHoles(old(blocks), old(inodes)[i]) && off + |src| <= old(inodes)[i].size ==> inodes == old(inodes))
        && Kept(sb, old(blocks), old(logged), blocks, logged)
    {
      hide Owns, Marked, WriteInv, CostInv, IsFree, NoHoles, Kept;
      KeptSelf(sb, blocks, logged);
      SizeFact(sb, blocks, inodes, owner);
      cost := Cost({}, {}, 0, false);
      ghost var w := WriteLog(blocks, inodes, i, logged, cost);
      WriteStart(sb, blocks, inodes, owner, i, off, src, logged, cost);
      CostStart(logged, off, inodes[i].addrs[NDIRECT]);
      var tot := 0;
      while tot < |src|
        invariant tot <= |src| && Valid() && i in inodes
        invariant w.Ok() && w == WriteLog(old(blocks), old(inodes), i, old(logged), cost)
        invariant WriteInv(w, blocks, inodes, i, off, src, tot)
        invariant tot == |src| || tot == 0 || (off + tot) % BSIZE == 0
        invariant w.Whole() ==> CostInv(w.logged, logged, off, tot, cost, inodes[i].addrs[NDIRECT])
        invariant w.Whole() && off + |src| <= w.inodes[i].size ==> inodes == old(inodes)
        invariant Kept(sb, old(blocks), old(logged), blocks, logged)
        decreases |src| - tot
      {
        var m;
        ghost var b1, l1 := blocks, logged;
        ok, m, cost := WriteChunk(i, src, off, tot, w);
        if !ok {
          return;
        }
        KeptTrans(sb, old(blocks), old(logged), b1, l1, blocks, logged);
        CostFree(w, cost, blocks, inodes, i, off, src, tot + m);
        w := w.(cost := cost);
        tot := tot + m;
      }
      ok := true;
    }

    /** writei: the file becomes the old one with src spliced in at off, and no byte of any other file
        changes. A file without holes keeps none and the inode table stays up to date. Every block that changes
        is logged. */
    method Writei(i: nat, src: seq<Byte>, off: nat) returns (r: Outcome)
      requires Valid() && i in inodes && off < UINT_LIMIT && |src| < UINT_LIMIT
      modifies this`blocks, this`inodes, this`owner, this`logged
      ensures old(inodes)[i].kind == 3 <==> r == Device
      ensures r == Refused <==>
        old(inodes)[i].kind != T_DEV && (off > old(inodes)[i].size || off + |src| > MAXFILE * BSIZE)
      ensures r == Panic ==> forall b: nat :: !IsFree(sb, blocks, b)
      ensures r == Device || r == Refused ==> unchanged(this)
      ensures r.Count? ==>
        && Valid() && r.n == |src| && inodes.Keys == old(inodes).Keys
        && Contents(blocks, inodes[i]) == Spliced(Contents(old(blocks), old(inodes)[i]), off, src)
        && inodes[i].kind == old(inodes)[i].kind && inodes[i].nlink == old(inodes)[i].nlink
        && OthersSame(old(blocks), old(inodes), blocks, inodes, i)
        && Changed(sb, old(blocks), old(logged), blocks, logged)
      ensures r.Count? && NoHoles(old(blocks), old(inodes)[i]) ==>
        && NoHoles(blocks, inodes[i])
        && (Synced(sb, old(blocks), old(inodes)) ==> Synced(sb, blocks, inodes))
        && |logged| <= |old(logged)| + WriteCost(off, |src|)
    {
      hide Owns, Marked, NoHoles, Contents, WriteInv, OthersSame, Spliced, CostInv, IsFree, WriteCost, Kept;
      hide Synced, Changed, SameBytes, SameSlots, OnDisk;
      SizeFact(sb, blocks, inodes, owner);
      if inodes[i].kind == T_DEV {
        return Device;
      }
      if off > inodes[i].size || (off + |src|) % UINT_LIMIT < off {
        return Refused;
      }
      if off + |src| > MAXFILE * BSIZE {
        return Refused;
      }
      ghost var b0, n0, whole := blocks, inodes, NoHoles(blocks, inodes[i]);
      ghost var cost;
      var ok;
      ok, cost := WriteLoop(i, src, off);
      if !ok {
        return Panic;
      }
      ghost var w, b1, n1, l1 := WriteLog(b0, n0, i, old(logged), cost), blocks, inodes, logged;
      WriteEnd(w, blocks, inodes, i, off, src);
      if whole {
        CostEnd(old(logged), logged, off, |src|, cost, inodes[i].addrs[NDIRECT], TableBlock(sb, i));
      }
      if |src| > 0 && off + |src| > inodes[i].size {
        ResizeOwns(sb, blocks, inodes, owner, i, off + |src|);
        inodes := inodes[i := inodes[i].(size := off + |src|)];
        ghost var n2 := inodes;
        Iupdate(i);
        SameFile(b0, n0, b1, blocks, n2, i);
        ChangedEnd(sb, b0, old(logged), b1, l1, blocks, logged, TableBlock(sb, i));
        SyncedEnd(sb, b0, old(logged), n0, b1, l1, blocks, n2, i);
      } else {
        ChangedSome(sb, b0, old(logged), b1, l1);
        if whole {
          SyncedSame(sb, b0, old(logged), n0, b1, l1);
        }
      }
      r := Count(|src|);
    }

    /** The first loop of itrunc: the direct blocks are freed and forgotten. */
    method FreeDirect(i: nat)
      requires Valid() && i in inodes
      modifies this`blocks, this`inodes, this`owner, this`logged
      ensures Valid() && i in inodes && inodes[i] == old(inodes)[i].(addrs := Cleared(old(inodes)[i].addrs, NDIRECT))
      ensures owner == WithoutSlots(old(owner), i, NDIRECT)
      ensures OthersSame(old(blocks), old(inodes), blocks, inodes, i)
      ensures Kept(sb, old(blocks), old(logged), blocks, logged)
    {
      hide Owns, Marked, OthersSame, InUse, Kept;
      KeptSelf(sb, blocks, logged);
      SizeFact(sb, blocks, inodes, owner);
      ghost var b0, n0 := blocks, inodes;
      OthersStart(b0, n0, i);
      NoneGone(owner, i);
      for s := 0 to NDIRECT
        invariant Valid() && i in inodes && inodes[i] == n0[i].(addrs := Cleared(n0[i].addrs, s))
        invariant owner == WithoutSlots(old(owner), i, s)
        invariant OthersSame(b0, n0, blocks, inodes, i) && Kept(sb, b0, old(logged), blocks, logged)
      {
        SizeFact(sb, blocks, inodes, owner);
        NextCleared(n0[i].addrs, s);
        ghost var b1, n1, o1 := blocks, inodes, owner;
        if inodes[i].addrs[s] != 0 {
          FreeOne(sb, blocks, inodes, owner, i, s);
          MapInRange(sb, inodes[i].addrs[s]);
          ghost var k, l1 := MapBlock(sb, inodes[i].addrs[s]), logged;
          var ok := Bfree(inodes[i].addrs[s]);
          assert ok;       // never "freeing free block"
          KeptOne(sb, b0, old(logged), b1, l1, k, blocks[k]);
          inodes := inodes[i := inodes[i].(addrs := inodes[i].addrs[s := 0])];
          owner := owner - {n1[i].addrs[s]};
          OthersTrans(b0, n0, b1, n1, blocks, inodes, i);
        }
        OneSlotGone(sb, b1, n1, o1, old(owner), i, s);
      }
    }

    /** The second loop of itrunc frees what the indirect block lists. */
    method FreeEntries(i: nat) returns (ghost gone: set<nat>)
      requires Valid() && i in inodes && inodes[i].addrs[NDIRECT] != 0
      modifies this`blocks, this`logged
      ensures Owns(sb, blocks, inodes, owner) && Marked(sb, blocks, owner, gone) && gone == Entries(owner, i, NINDIRECT)
      ensures OthersSame(old(blocks), inodes, blocks, inodes, i) && Kept(sb, old(blocks), old(logged), blocks, logged)
    {
      hide Owns, Marked, OthersSame, InUse, Slot, Kept;
      KeptSelf(sb, blocks, logged);
      SizeFact(sb, blocks, inodes, owner);
      IndirectOwned(sb, blocks, inodes, owner, i);
      OthersStart(blocks, inodes, i);
      ghost var b0 := blocks;
      var d := inodes[i].addrs[NDIRECT];
      var a := blocks[d];
      gone := {};
      for j := 0 to NINDIRECT
        invariant |blocks| == sb.size && blocks[d] == a && Owns(sb, blocks, inodes, owner)
        invariant Marked(sb, blocks, owner, gone)
        invariant gone == Entries(owner, i, j)
        invariant OthersSame(b0, inodes, blocks, inodes, i) && Kept(sb, b0, old(logged), blocks, logged)
      {
        ghost var b1, l1 := blocks, logged;
        SizeFact(sb, blocks, inodes, owner);
        SlotEquals(blocks, inodes[i], NDIRECT + j);
        EntryGone(sb, blocks, inodes, owner, i, j);
        if GetWord(a, j) != 0 {
          FreeEntry(sb, blocks, inodes, owner, i, FileSlot(NDIRECT + j), gone);
          MapInRange(sb, GetWord(a, j));
          ghost var k := MapBlock(sb, GetWord(a, j));
          var ok := Bfree(GetWord(a, j));
          assert ok;       // never "freeing free block"
          KeptOne(sb, b0, old(logged), b1, l1, k, blocks[k]);
          gone := gone + {GetWord(a, j)};
          OthersTrans(b0, inodes, b1, inodes, blocks, inodes, i);
        }
      }
    }

    /** The indirect part of itrunc: the entries, then the indirect block itself. */
    method FreeIndirect(i: nat)
      requires Valid() && i in inodes && inodes[i].addrs[NDIRECT] != 0
      modifies this`blocks, this`inodes, this`owner, this`logged
      ensures Valid() && i in inodes && inodes == WithAddr(old(inodes), i, NDIRECT, 0)
      ensures owner == old(owner) - IndirectBlocks(old(owner), i)
      ensures OthersSame(old(blocks), old(inodes), blocks, inodes, i)
      ensures Kept(sb, old(blocks), old(logged), blocks, logged)
    {
      hide Owns, Marked, OthersSame, InUse, Slot, Kept;
      ghost var b0 := blocks;
      AllEntries(sb, b0, inodes, owner, i);
      var d := inodes[i].addrs[NDIRECT];
      ghost var gone;
      gone := FreeEntries(i);
      SizeFact(sb, blocks, inodes, owner);
      IndirectOwned(sb, blocks, inodes, owner, i);
      EmptySlot(blocks, inodes[i], NDIRECT);
      ghost var b1, l1, k := blocks, logged, MapBlock(sb, d);
      FreeEntry(sb, blocks, inodes, owner, i, NDIRECT, gone);
      MapInRange(sb, d);
      var ok := Bfree(d);
      assert ok;           // never "freeing free block"
      KeptOne(sb, b0, old(logged), b1, l1, k, blocks[k]);
      OthersTrans(b0, inodes, b1, inodes, blocks, inodes, i);
      DetachIndirect(sb, blocks, inodes, owner, i);
      DetachOthers(b0, inodes, blocks, inodes, i, WithAddr(inodes, i, NDIRECT, 0)[i]);
      GoneMarked(sb, blocks, owner, gone + {d});
      inodes := inodes[i := inodes[i].(addrs := inodes[i].addrs[NDIRECT := 0])];
      owner := owner - IndirectBlocks(owner, i);
    }

    /** itrunc: exactly the blocks of inode i are freed; no other file changes, and the inode table stays up to
        date. */
    method Itrunc(i: nat)
      requires Valid() && i in inodes
      modifies this`blocks, this`inodes, this`owner, this`logged
      ensures Valid() && i in inodes
      ensures inodes[i] == old(inodes)[i].(size := 0, addrs := Cleared(old(inodes)[i].addrs, NDIRECT + 1))
      ensures owner == WithoutSlots(old(owner), i, SLOTS)
      ensures OthersSame(old(blocks), old(inodes), blocks, inodes, i)
      ensures OnDisk(sb, blocks, i, inodes[i]) && (Synced(sb, old(blocks), old(inodes)) ==> Synced(sb, blocks, inodes))
      ensures Changed(sb, old(blocks), old(logged), blocks, logged)
    {
      hide Owns, Marked, OthersSame, WithoutSlots, Kept, Synced, Changed, OnDisk, SameBytes, SameSlots;
      ghost var b0, n0, o0 := blocks, inodes, owner;
      SizeFact(sb, blocks, inodes, owner);
      SlotsBounded(sb, blocks, inodes, owner);
      FreeDirect(i);
      SizeFact(sb, blocks, inodes, owner);
      ghost var b1, n1, o1, l1 := blocks, inodes, owner, logged;
      if inodes[i].addrs[NDIRECT] != 0 {
        FreeIndirect(i);
        OthersTrans(b0, n0, b1, n1, blocks, inodes, i);
        KeptTrans(sb, b0, old(logged), b1, l1, blocks, logged);
      } else {
        NothingIndirect(sb, blocks, inodes, owner, i);
      }
      SlotsAllGone(o0, o1, owner, i);
      NextCleared(n0[i].addrs, NDIRECT);
      ResizeOwns(sb, blocks, inodes, owner, i, 0);
      ResizeOthers(b0, n0, blocks, inodes, i, inodes[i].(size := 0));
      inodes := inodes[i := inodes[i].(size := 0)];
      ghost var b2, l2 := blocks, logged;
      Iupdate(i);
      SameFileOthers(b0, n0, b2, blocks, inodes, i);
      ChangedEnd(sb, b0, old(logged), b2, l2, blocks, logged, TableBlock(sb, i));
      SyncedEnd(sb, b0, old(logged), n0, b2, l2, blocks, inodes, i);
    }
  }

  // ---------- The inode table ----------

  /** Like Kept, for a whole transaction: also blocks of the inode table may have been logged. */
  ghost predicate Changed(sb: Super, b0: seq<Block>, l0: set<nat>, b1: seq<Block>, l1: set<nat>)
  {
    && |b1| == |b0| && l0 <= l1
    && (forall b: nat :: b < |b0| && b1[b] != b0[b] ==> b in l1)
    && (forall b :: b in l1 ==> b in l0 || sb.inodestart <= b < |b0|)
  }

  lemma ChangedSome(sb: Super, b0: seq<Block>, l0: set<nat>, b1: seq<Block>, l1: set<nat>)
    requires Kept(sb, b0, l0, b1, l1) && sb.inodestart <= sb.bmapstart
    ensures Changed(sb, b0, l0, b1, l1)
  {
  }

  lemma ChangedEnd(sb: Super, b0: seq<Block>, l0: set<nat>, b1: seq<Block>, l1: set<nat>, b2: seq<Block>, l2: set<nat>,
                   t: nat)
    requires Kept(sb, b0, l0, b1, l1) && sb.inodestart <= t < sb.bmapstart && t < |b0| && l2 == l1 + {t} && |b2| == |b1|
    requires forall b: nat :: b < |b2| && b != t ==> b2[b] == b1[b]
    ensures Changed(sb, b0, l0, b2, l2)
  {
  }

  lemma AddrsFit(sb: Super, blocks: seq<Block>, inodes: Inodes, owner: Owners, i: nat)
    requires Owns(sb, blocks, inodes, owner) && i in inodes
    ensures |inodes[i].addrs| == NDIRECT + 1 && WordSized(inodes[i].addrs) && |blocks| == sb.size
    ensures sb.bmapstart < sb.datastart <= sb.size
  {
    forall j | 0 <= j < NDIRECT + 1
      ensures inodes[i].addrs[j] < UINT_LIMIT
    {
      var b := Slot(blocks, inodes[i], j);
      if b != 0 {
        assert OwnerOk(sb, blocks, inodes, b, owner[b]);
      }
    }
  }

  predicate FieldsFit(ip: Inode)
  {
    && ip.kind < SHORT_LIMIT && ip.nlink < SHORT_LIMIT && ip.size < UINT_LIMIT
    && |ip.addrs| == NDIRECT + 1 && WordSized(ip.addrs)
  }

  /** Writing an inode into the table changes that inode of the table and no other. */
  lemma TableStore(sb: Super, blocks: seq<Block>, i: nat, ip: Inode)
    requires TableBlock(sb, i) < |blocks| && FieldsFit(ip)
    ensures var ib := TableBlock(sb, i);
      var blocks' := blocks[ib := PutInode(blocks[ib], i % IPB, ip)];
      && OnDisk(sb, blocks', i, ip)
      && forall j, jp :: j != i && OnDisk(sb, blocks, j, jp) ==> OnDisk(sb, blocks', j, jp)
  {
    var ib := TableBlock(sb, i);
    var blocks' := blocks[ib := PutInode(blocks[ib], i % IPB, ip)];
    hide PutInode, GetInode;
    InodeRoundTrip(blocks[ib], i % IPB, ip, i % IPB);
    forall j: nat, jp | j != i && OnDisk(sb, blocks, j, jp)
      ensures OnDisk(sb, blocks', j, jp)
    {
      InodeRoundTrip(blocks[ib], i % IPB, ip, j % IPB);
      if TableBlock(sb, j) == ib {
        assert j / IPB == i / IPB;
        assert j % IPB != i % IPB;
      }
    }
  }

  /** Writing a block before the data changes nothing that files are made of. */
  lemma MetaWrite(sb: Super, blocks: seq<Block>, inodes: Inodes, owner: Owners, b: nat, data: Block)
    requires Owns(sb, blocks, inodes, owner) && b < sb.datastart <= sb.size
    ensures b < |blocks|
    ensures var blocks' := blocks[b := data];
      && Owns(sb, blocks', inodes, owner) && SameBytes(blocks, inodes, blocks', inodes)
      && SameSlots(blocks, blocks', inodes)
  {
    NotMeta(sb, blocks, inodes, owner, b);
    SizeFact(sb, blocks, inodes, owner);
    WriteKeepsOwns(sb, blocks, inodes, owner, b, data);
    SlotsSame(sb, blocks, inodes, owner, b, data);
    QuietWrite(sb, blocks, inodes, owner, b, data);
    hide Owns, SameBytes, Slot;
  }

  lemma TableKeepsMarked(sb: Super, blocks: seq<Block>, owner: Owners, b: nat, data: Block)
    requires Geometry(sb) && |blocks| == sb.size && Marked(sb, blocks, owner, {}) && b < sb.bmapstart
    ensures Marked(sb, blocks[b := data], owner, {})
  {
    forall c: nat | c < sb.size
      ensures InUse(blocks[b := data], sb.bmapstart, c) <==> InUse(blocks, sb.bmapstart, c)
    {
    }
  }

  lemma TableSame(sb: Super, b0: seq<Block>, l0: set<nat>, b1: seq<Block>, l1: set<nat>, j: nat, ip: Inode)
    requires Kept(sb, b0, l0, b1, l1) && OnDisk(sb, b0, j, ip) && TableBlock(sb, j) < sb.bmapstart
    ensures OnDisk(sb, b1, j, ip)
  {
  }

  lemma SyncedSame(sb: Super, b0: seq<Block>, l0: set<nat>, inodes: Inodes, b1: seq<Block>, l1: set<nat>)
    requires Kept(sb, b0, l0, b1, l1) && forall j :: j in inodes ==> TableBlock(sb, j) < sb.bmapstart
    ensures Synced(sb, b0, inodes) ==> Synced(sb, b1, inodes)
  {
    hide Kept, OnDisk;
    if Synced(sb, b0, inodes) {
      forall j | j in inodes
        ensures OnDisk(sb, b1, j, inodes[j])
      {
        TableSame(sb, b0, l0, b1, l1, j, inodes[j]);
      }
    }
  }

  lemma SyncedEnd(sb: Super, b0: seq<Block>, l0: set<nat>, n0: Inodes, b1: seq<Block>, l1: set<nat>,
                  b2: seq<Block>, n2: Inodes, i: nat)
    requires Kept(sb, b0, l0, b1, l1) && OthersSame(b0, n0, b2, n2, i)
    requires forall j :: j in n0 ==> TableBlock(sb, j) < sb.bmapstart
    requires forall j, ip :: j != i && OnDisk(sb, b1, j, ip) ==> OnDisk(sb, b2, j, ip)
    requires i in n2 && OnDisk(sb, b2, i, n2[i])
    ensures Synced(sb, b0, n0) ==> Synced(sb, b2, n2)
  {
    hide Kept, OnDisk;
    if Synced(sb, b0, n0) {
      forall j | j in n2
        ensures OnDisk(sb, b2, j, n2[j])
      {
        if j != i {
          TableSame(sb, b0, l0, b1, l1, j, n0[j]);
        }
      }
    }
  }

  /** A write that changes no byte and no slot leaves what has been achieved for inode i and for the others. */
  lemma SameFile(b0: seq<Block>, n0: Inodes, b1: seq<Block>, b2: seq<Block>, n: Inodes, i: nat)
    requires SameBytes(b1, n, b2, n) && SameSlots(b1, b2, n) && OthersSame(b0, n0, b1, n, i) && i in n && Sized(n[i])
    ensures OthersSame(b0, n0, b2, n, i) && Contents(b2, n[i]) == Contents(b1, n[i])
    ensures NoHoles(b1, n[i]) ==> NoHoles(b2, n[i])
  {
    SameFileOthers(b0, n0, b1, b2, n, i);
    hide ByteAt, Slot;
  }

  lemma SameFileOthers(b0: seq<Block>, n0: Inodes, b1: seq<Block>, b2: seq<Block>, n: Inodes, i: nat)
    requires SameBytes(b1, n, b2, n) && OthersSame(b0, n0, b1, n, i)
    ensures OthersSame(b0, n0, b2, n, i)
  {
    hide ByteAt;
  }

  // ---------- Reading ----------

  /** Every block under n bytes at off is there. */
  ghost predicate RangeMapped(blocks: seq<Block>, ip: Inode, off: nat, n: nat)
  {
    |ip.addrs| == NDIRECT + 1 && forall x: nat :: off <= x < off + n && x / BSIZE < MAXFILE ==>
      Slot(blocks, ip, FileSlot(x / BSIZE)) != 0
  }

  /** The bytes of a file at off. */
  ghost predicate BytesAre(blocks: seq<Block>, ip: Inode, off: nat, bytes: seq<Byte>)
  {
    && |ip.addrs| == NDIRECT + 1 && off + |bytes| <= MAXFILE * BSIZE
    && forall x :: 0 <= x < |bytes| ==> bytes[x] == ByteAt(blocks, ip, off + x)
  }

  lemma ReadStart(blocks: seq<Block>, ip: Inode, off: nat)
    requires |ip.addrs| == NDIRECT + 1 && off <= MAXFILE * BSIZE
    ensures RangeMapped(blocks, ip, off, 0) && BytesAre(blocks, ip, off, [])
  {
  }

  lemma RangeMore(blocks: seq<Block>, ip: Inode, off: nat, tot: nat, m: nat)
    requires RangeMapped(blocks, ip, off, tot) && InBlock(off + tot, m)
    requires (off + tot) / BSIZE < MAXFILE && Slot(blocks, ip, FileSlot((off + tot) / BSIZE)) != 0
    ensures RangeMapped(blocks, ip, off, tot + m)
  {
    hide Slot;
    forall x: nat | off + tot <= x < off + tot + m
      ensures x / BSIZE == (off + tot) / BSIZE
    {
    }
  }

  // ---------- Truncation ----------

  function Cleared(addrs: seq<nat>, n: nat): (r: seq<nat>)
    ensures |r| == |addrs|
  {
    seq(|addrs|, k requires 0 <= k < |addrs| => if k < n then 0 else addrs[k])
  }

  lemma NextCleared(addrs: seq<nat>, s: nat)
    requires s < |addrs|
    ensures Cleared(addrs, s)[s] == addrs[s]
    ensures Cleared(addrs, s)[s := 0] == Cleared(addrs, s + 1)
    ensures addrs[s] == 0 ==> Cleared(addrs, s) == Cleared(addrs, s + 1)
    ensures Cleared(addrs, 0) == addrs
  {
  }

  function WithoutSlots(owner: Owners, i: nat, n: nat): (r: Owners)
  {
    owner - (set b | b in owner && owner[b].inum == i && owner[b].slot < n)
  }

  lemma NoneGone(owner: Owners, i: nat)
    ensures WithoutSlots(owner, i, 0) == owner
  {
  }

  lemma OneSlotGone(sb: Super, blocks: seq<Block>, inodes: Inodes, owner: Owners, all: Owners, i: nat, s: nat)
    requires Owns(sb, blocks, inodes, owner) && i in inodes && s < NDIRECT && owner == WithoutSlots(all, i, s)
    ensures WithoutSlots(all, i, s + 1) == if inodes[i].addrs[s] != 0 then owner - {inodes[i].addrs[s]} else owner
  {
    assert inodes[i].addrs[s] == Slot(blocks, inodes[i], s);
    forall b | b in owner && owner[b] == Place(i, s)
      ensures b == inodes[i].addrs[s] && b != 0
    {
      assert OwnerOk(sb, blocks, inodes, b, owner[b]);
    }
  }

  lemma OthersStart(b0: seq<Block>, n0: Inodes, i: nat)
    requires forall j :: j in n0 ==> |n0[j].addrs| == NDIRECT + 1
    ensures OthersSame(b0, n0, b0, n0, i)
  {
  }

  lemma OthersTrans(b0: seq<Block>, n0: Inodes, b1: seq<Block>, n1: Inodes, b2: seq<Block>, n2: Inodes, i: nat)
    requires OthersSame(b0, n0, b1, n1, i) && OthersSame(b1, n1, b2, n2, i)
    ensures OthersSame(b0, n0, b2, n2, i)
  {
    hide ByteAt;
  }

  lemma DetachOthers(b0: seq<Block>, n0: Inodes, b1: seq<Block>, n1: Inodes, i: nat, ip: Inode)
    requires OthersSame(b0, n0, b1, n1, i) && i in n0
    ensures OthersSame(b0, n0, b1, n1[i := ip], i)
  {
    hide ByteAt;
  }

  function Unmarked(sb: Super, blocks: seq<Block>, b: nat): (r: seq<Block>)
    requires MapBlock(sb, b) < |blocks|
  {
    blocks[MapBlock(sb, b) := ClearBit(blocks[MapBlock(sb, b)], b % BPB)]
  }

  /** Clearing the bit of a block that inode i owns: its bit was set, and nobody's blocks or bytes change. */
  lemma FreeEntry(sb: Super, blocks: seq<Block>, inodes: Inodes, owner: Owners, i: nat, s: nat, gone: set<nat>)
    requires Owns(sb, blocks, inodes, owner) && Marked(sb, blocks, owner, gone) && i in inodes && s < SLOTS
    requires Slot(blocks, inodes[i], s) != 0 && Slot(blocks, inodes[i], s) !in gone
    ensures var b := Slot(blocks, inodes[i], s);
      && b < sb.size && b in owner && owner[b] == Place(i, s)
      && InUse(blocks, sb.bmapstart, b) && MapBlock(sb, b) < sb.datastart
      && Owns(sb, Unmarked(sb, blocks, b), inodes, owner) && Marked(sb, Unmarked(sb, blocks, b), owner, gone + {b})
      && OthersSame(blocks, inodes, Unmarked(sb, blocks, b), inodes, i)
  {
    var b := Slot(blocks, inodes[i], s);
    SizeFact(sb, blocks, inodes, owner);
    SlotInRange(sb, blocks, inodes, owner, i, s);
    assert b in owner && owner[b] == Place(i, s);
    hide Owns, Slot, InUse;
    MapInRange(sb, b);
    var k := MapBlock(sb, b);
    if k in owner {
      NotMeta(sb, blocks, inodes, owner, k);
    }
    UnmarkedMarks(sb, blocks, owner, b, gone);
    hide Marked;
    WriteKeepsOwns(sb, blocks, inodes, owner, k, Unmarked(sb, blocks, b)[k]);
    QuietWrite(sb, blocks, inodes, owner, k, Unmarked(sb, blocks, b)[k]);
    QuietOthers(blocks, Unmarked(sb, blocks, b), inodes, i);
  }

  lemma QuietOthers(blocks: seq<Block>, blocks': seq<Block>, inodes: Inodes, i: nat)
    requires SameBytes(blocks, inodes, blocks', inodes)
    ensures OthersSame(blocks, inodes, blocks', inodes, i)
  {
    hide ByteAt;
  }

  lemma UnmarkedMarks(sb: Super, blocks: seq<Block>, owner: Owners, b: nat, gone: set<nat>)
    requires Geometry(sb) && |blocks| == sb.size && Marked(sb, blocks, owner, gone)
    requires b in owner && b !in gone && sb.datastart <= b < sb.size && MapBlock(sb, b) < sb.datastart
    ensures InUse(blocks, sb.bmapstart, b) && Marked(sb, Unmarked(sb, blocks, b), owner, gone + {b})
  {
    hide InUse;
    forall c: nat | c < sb.size
      ensures InUse(Unmarked(sb, blocks, b), sb.bmapstart, c) <==> c < sb.datastart || (c in owner && c !in gone + {b})
    {
      UnmarkOne(blocks, sb.bmapstart, b, c);
    }
  }

  lemma FreeOne(sb: Super, blocks: seq<Block>, inodes: Inodes, owner: Owners, i: nat, s: nat)
    requires Owns(sb, blocks, inodes, owner) && Marked(sb, blocks, owner, {}) && i in inodes && s < NDIRECT
    requires inodes[i].addrs[s] != 0
    ensures var b := inodes[i].addrs[s];
      && b < sb.size && InUse(blocks, sb.bmapstart, b) && MapBlock(sb, b) < sb.datastart && |blocks| == sb.size
      && Owns(sb, Unmarked(sb, blocks, b), WithAddr(inodes, i, s, 0), owner - {b})
      && Marked(sb, Unmarked(sb, blocks, b), owner - {b}, {})
      && OthersSame(blocks, inodes, Unmarked(sb, blocks, b), WithAddr(inodes, i, s, 0), i)
  {
    SizeFact(sb, blocks, inodes, owner);
    EmptySlot(blocks, inodes[i], s);
    hide Owns, Slot, InUse, OthersSame, Unmarked;
    FreeEntry(sb, blocks, inodes, owner, i, s, {});
    var b := inodes[i].addrs[s];
    DetachDirect(sb, Unmarked(sb, blocks, b), inodes, owner, i, s);
    DetachOthers(blocks, inodes, Unmarked(sb, blocks, b), inodes, i, WithAddr(inodes, i, s, 0)[i]);
  }

  /** The blocks in the first j entries of the indirect block. */
  function Entries(owner: Owners, i: nat, j: nat): (r: set<nat>)
  {
    set b | b in owner && owner[b].inum == i && NDIRECT < owner[b].slot < NDIRECT + 1 + j
  }

  lemma EntryGone(sb: Super, blocks: seq<Block>, inodes: Inodes, owner: Owners, i: nat, j: nat)
    requires Owns(sb, blocks, inodes, owner) && i in inodes && j < NINDIRECT
    ensures var b := Slot(blocks, inodes[i], FileSlot(NDIRECT + j));
      && b !in Entries(owner, i, j)
      && Entries(owner, i, j + 1) == if b != 0 then Entries(owner, i, j) + {b} else Entries(owner, i, j)
  {
    var b := Slot(blocks, inodes[i], FileSlot(NDIRECT + j));
    forall c | c in owner
      ensures owner[c] == Place(i, FileSlot(NDIRECT + j)) ==> c == b && c != 0
    {
      assert OwnerOk(sb, blocks, inodes, c, owner[c]);
    }
  }

  lemma AllEntries(sb: Super, blocks: seq<Block>, inodes: Inodes, owner: Owners, i: nat)
    requires Owns(sb, blocks, inodes, owner) && i in inodes && inodes[i].addrs[NDIRECT] != 0
    ensures IndirectBlocks(owner, i) == Entries(owner, i, NINDIRECT) + {inodes[i].addrs[NDIRECT]}
  {
    IndirectOwned(sb, blocks, inodes, owner, i);
    forall c | c in owner
      ensures owner[c].slot < SLOTS && (owner[c] == Place(i, NDIRECT) ==> c == inodes[i].addrs[NDIRECT])
    {
      assert OwnerOk(sb, blocks, inodes, c, owner[c]);
    }
  }

  lemma GoneMarked(sb: Super, blocks: seq<Block>, owner: Owners, gone: set<nat>)
    requires Marked(sb, blocks, owner, gone)
    ensures Marked(sb, blocks, owner - gone, {})
  {
    hide InUse;
  }

  lemma NothingIndirect(sb: Super, blocks: seq<Block>, inodes: Inodes, owner: Owners, i: nat)
    requires Owns(sb, blocks, inodes, owner) && i in inodes && inodes[i].addrs[NDIRECT] == 0
    ensures owner == owner - IndirectBlocks(owner, i)
  {
    forall c | c in owner
      ensures !(owner[c].inum == i && owner[c].slot >= NDIRECT)
    {
      assert OwnerOk(sb, blocks, inodes, c, owner[c]);
    }
  }

  lemma SlotsBounded(sb: Super, blocks: seq<Block>, inodes: Inodes, owner: Owners)
    requires Owns(sb, blocks, inodes, owner)
    ensures forall b :: b in owner ==> owner[b].slot < SLOTS
  {
    forall b | b in owner
      ensures owner[b].slot < SLOTS
    {
      assert OwnerOk(sb, blocks, inodes, b, owner[b]);
    }
  }

  lemma SlotsAllGone(o0: Owners, o1: Owners, o2: Owners, i: nat)
    requires o1 == WithoutSlots(o0, i, NDIRECT) && o2 == o1 - IndirectBlocks(o1, i)
    requires forall b :: b in o0 ==> o0[b].slot < SLOTS
    ensures o2 == WithoutSlots(o0, i, SLOTS)
  {
  }

  /** The state when writei's loop began, and what the loop has logged so far. */
  datatype WriteLog = WriteLog(blocks: seq<Block>, inodes: Inodes, i: nat, logged: set<nat>, cost: Cost) {
    predicate Ok() {
      i in inodes && Sized(inodes[i])
    }

    ghost predicate Whole() {
      Ok() && NoHoles(blocks, inodes[i])
    }
  }

  ghost predicate WriteInv(w: WriteLog, b1: seq<Block>, n1: Inodes, i: nat, off: nat, src: seq<Byte>, tot: nat)
  {
    && w.Ok() && w.i == i && off <= w.inodes[i].size
    && Grew(w.blocks, w.inodes, b1, n1, i) && OthersSame(w.blocks, w.inodes, b1, n1, i)
    && Written(w.blocks, w.inodes[i], b1, n1[i], off, src, tot) && Mapped(b1, n1[i], off, tot)
  }

  /** The old bytes with src in place from off on; the sequence grows if src runs past its end. */
  function Spliced(old_: seq<Byte>, off: nat, src: seq<Byte>): (r: seq<Byte>)
    requires off <= |old_|
    ensures |r| == if off + |src| > |old_| then off + |src| else |old_|
  {
    old_[..off] + src + (if off + |src| < |old_| then old_[off + |src|..] else [])
  }

  ghost predicate OthersSame(b0: seq<Block>, n0: Inodes, b1: seq<Block>, n1: Inodes, i: nat)
  {
    && n1.Keys == n0.Keys
    && forall j :: j in n0 && j != i ==>
         && n1[j] == n0[j] && |n0[j].addrs| == NDIRECT + 1
         && forall k: nat :: k < MAXFILE * BSIZE ==> ByteAt(b1, n1[j], k) == ByteAt(b0, n0[j], k)
  }

  /** The first tot bytes of src have been written at off, and no other byte of inode i has changed. */
  ghost predicate Written(b0: seq<Block>, ip0: Inode, b1: seq<Block>, ip1: Inode, off: nat, src: seq<Byte>, tot: nat)
  {
    && |ip0.addrs| == |ip1.addrs| == NDIRECT + 1 && tot <= |src|
    && forall k: nat :: k < MAXFILE * BSIZE ==>
         ByteAt(b1, ip1, k) == if off <= k < off + tot then src[k - off] else ByteAt(b0, ip0, k)
  }

  /** The number of blocks that n bytes at off touch. */
  function Touched(off: nat, n: nat): (t: nat)
  {
    if n == 0 then 0 else (off % BSIZE + n + BSIZE - 1) / BSIZE
  }

  /** Data blocks, a bitmap block for each block that can be new, the indirect block with its bitmap block,
      and the inode block. */
  function WriteCost(off: nat, n: nat): (c: nat)
  {
    var t := Touched(off, n);
    t + (if off % BSIZE != 0 && t > 0 then t - 1 else t) + 3
  }

  /** Every block from off to off + tot is there. */
  ghost predicate Mapped(blocks: seq<Block>, ip: Inode, off: nat, tot: nat)
  {
    && |ip.addrs| == NDIRECT + 1
    && forall n: nat :: n < MAXFILE && tot > 0 && off / BSIZE <= n <= (off + tot - 1) / BSIZE ==>
         Slot(blocks, ip, FileSlot(n)) != 0
  }

  lemma WriteStart(sb: Super, b0: seq<Block>, n0: Inodes, owner: Owners, i: nat, off: nat, src: seq<Byte>,
                   logged: set<nat>, c: Cost)
    requires Owns(sb, b0, n0, owner) && i in n0 && Sized(n0[i]) && off <= n0[i].size
    ensures WriteInv(WriteLog(b0, n0, i, logged, c), b0, n0, i, off, src, 0)
  {
    SizeFact(sb, b0, n0, owner);
    StartsSame(b0, n0, i);
    hide ByteAt, Slot, Grew, Owns;
  }

  lemma CostFree(w: WriteLog, c: Cost, b1: seq<Block>, n1: Inodes, i: nat, off: nat, src: seq<Byte>, tot: nat)
    requires WriteInv(w, b1, n1, i, off, src, tot)
    ensures WriteInv(w.(cost := c), b1, n1, i, off, src, tot) && w.(cost := c).Ok()
    ensures w.(cost := c).Whole() <==> w.Whole()
  {
    hide Grew, OthersSame, Written, Mapped, NoHoles;
  }

  /** What a round may assume about the block it is about to write. */
  lemma WriteFacts(w: WriteLog, b1: seq<Block>, n1: Inodes, i: nat, off: nat, src: seq<Byte>, tot: nat)
    requires WriteInv(w, b1, n1, i, off, src, tot) && (off + tot) / BSIZE < MAXFILE
    ensures i in n1 && |n1[i].addrs| == NDIRECT + 1
    ensures w.Whole() && (off + tot < w.inodes[i].size || (tot == 0 && off % BSIZE != 0)) ==>
      Slot(b1, n1[i], FileSlot((off + tot) / BSIZE)) != 0
  {
    hide OthersSame, Written, Mapped, Slot;
    FromGrew(w.blocks, w.inodes, b1, n1, i);
    if w.Whole() && (off + tot < w.inodes[i].size || (tot == 0 && off % BSIZE != 0)) {
      FirstMapped(w.blocks, w.inodes, b1, n1, i, off, tot);
    }
  }

  /** In a file without holes the blocks up to its end are mapped, also the block that off falls inside of. */
  lemma FirstMapped(b0: seq<Block>, n0: Inodes, b1: seq<Block>, n1: Inodes, i: nat, off: nat, tot: nat)
    requires Grew(b0, n0, b1, n1, i) && Sized(n0[i]) && off <= n0[i].size && (off + tot) / BSIZE < MAXFILE
    requires NoHoles(b0, n0[i]) && (off + tot < n0[i].size || (tot == 0 && off % BSIZE != 0))
    ensures Slot(b1, n1[i], FileSlot((off + tot) / BSIZE)) != 0
  {
    assert (off + tot) / BSIZE * BSIZE < n0[i].size;
    assert Slot(b0, n0[i], FileSlot((off + tot) / BSIZE)) != 0;
  }

  /** Mapping a block keeps everything the write loop has achieved. */
  lemma WriteMapped(w: WriteLog, b1: seq<Block>, n1: Inodes, b2: seq<Block>, n2: Inodes, i: nat, off: nat,
                    src: seq<Byte>, tot: nat)
    requires WriteInv(w, b1, n1, i, off, src, tot) && Grew(b1, n1, b2, n2, i) && SameBytes(b1, n1, b2, n2)
    ensures WriteInv(w, b2, n2, i, off, src, tot)
  {
    GrewTrans(w.blocks, w.inodes, b1, n1, b2, n2, i);
    hide ByteAt, Slot;
    assert forall j :: j in w.inodes && j != i ==> n2[j] == n1[j];
  }

  lemma SlotsGrew(b0: seq<Block>, n0: Inodes, b1: seq<Block>, n1: Inodes, b2: seq<Block>, i: nat)
    requires Grew(b0, n0, b1, n1, i)
    requires forall j, s: nat :: j in n1 && s < SLOTS ==>
      |n1[j].addrs| == NDIRECT + 1 && Slot(b2, n1[j], s) == Slot(b1, n1[j], s)
    ensures Grew(b0, n0, b2, n1, i)
  {
    hide Slot;
  }

  /** The block image that one chunk of a write leaves. */
  predicate Overlay(bp: Block, data: Block, o: nat, chunk: seq<Byte>)
  {
    o + |chunk| <= BSIZE && data == bp[..o] + chunk + bp[o + |chunk|..]
  }

  lemma WrittenMore(b0: seq<Block>, ip0: Inode, b1: seq<Block>, ip1: Inode, b2: seq<Block>, off: nat, src: seq<Byte>,
                    tot: nat, m: nat, b: nat, data: Block)
    requires Written(b0, ip0, b1, ip1, off, src, tot) && 0 < m && tot + m <= |src| && InBlock(off + tot, m)
    requires (off + tot) / BSIZE < MAXFILE && b == Slot(b1, ip1, FileSlot((off + tot) / BSIZE)) && 0 < b < |b1|
    requires Overlay(b1[b], data, (off + tot) % BSIZE, src[tot..tot + m])
    requires forall k: nat :: k < MAXFILE * BSIZE ==>
      ByteAt(b2, ip1, k) == Patched(b1, ip1, (off + tot) / BSIZE, data, k)
    ensures Written(b0, ip0, b2, ip1, off, src, tot + m)
  {
    var at := off + tot;
    forall k: nat | k < MAXFILE * BSIZE
      ensures ByteAt(b2, ip1, k) == if off <= k < off + tot + m then src[k - off] else ByteAt(b0, ip0, k)
    {
      WrittenByte(b0, ip0, b1, ip1, off, src, tot, m, b, data, k);
    }
  }

  lemma WrittenByte(b0: seq<Block>, ip0: Inode, b1: seq<Block>, ip1: Inode, off: nat, src: seq<Byte>,
                    tot: nat, m: nat, b: nat, data: Block, k: nat)
    requires Written(b0, ip0, b1, ip1, off, src, tot) && 0 < m && tot + m <= |src| && InBlock(off + tot, m)
    requires (off + tot) / BSIZE < MAXFILE && b == Slot(b1, ip1, FileSlot((off + tot) / BSIZE)) && 0 < b < |b1|
    requires Overlay(b1[b], data, (off + tot) % BSIZE, src[tot..tot + m]) && k < MAXFILE * BSIZE
    ensures Patched(b1, ip1, (off + tot) / BSIZE, data, k) ==
      if off <= k < off + tot + m then src[k - off] else ByteAt(b0, ip0, k)
  {
    var at := off + tot;
    if k / BSIZE == at / BSIZE {
      var o, x := at % BSIZE, k % BSIZE;
      assert k - at == x - o;
      if o <= x < o + m {
        assert data[x] == src[tot..tot + m][x - o];
      } else {
        assert data[x] == b1[b][x];
        assert ByteAt(b1, ip1, k) == b1[b][x];
      }
    } else {
      assert k < at || at + m <= k;
    }
  }

  lemma MappedMore(b1: seq<Block>, b2: seq<Block>, ip: Inode, off: nat, tot: nat, m: nat)
    requires Mapped(b1, ip, off, tot) && 0 < m && InBlock(off + tot, m) && (tot == 0 || (off + tot) % BSIZE == 0)
    requires (off + tot) / BSIZE < MAXFILE && Slot(b1, ip, FileSlot((off + tot) / BSIZE)) != 0
    requires forall s: nat :: s < SLOTS ==> Slot(b2, ip, s) == Slot(b1, ip, s)
    ensures Mapped(b2, ip, off, tot + m)
  {
    hide Slot;
    var at := off + tot;
    assert (at + m - 1) / BSIZE == at / BSIZE;
    assert tot > 0 ==> (at - 1) / BSIZE == at / BSIZE - 1;
  }

  /** Copying a chunk of src into its block. */
  lemma WriteChunkData(sb: Super, w: WriteLog, blocks: seq<Block>, inodes: Inodes, owner: Owners,
                       i: nat, off: nat, src: seq<Byte>, tot: nat, m: nat, b: nat, data: Block)
    requires Owns(sb, blocks, inodes, owner) && i in inodes && |inodes[i].addrs| == NDIRECT + 1
    requires WriteInv(w, blocks, inodes, i, off, src, tot)
    requires 0 < m && tot + m <= |src| && InBlock(off + tot, m) && (tot == 0 || (off + tot) % BSIZE == 0)
    requires (off + tot) / BSIZE < MAXFILE && b == Slot(blocks, inodes[i], FileSlot((off + tot) / BSIZE)) && b != 0
    requires b < |blocks| && Overlay(blocks[b], data, (off + tot) % BSIZE, src[tot..tot + m])
    ensures Owns(sb, blocks[b := data], inodes, owner) && WriteInv(w, blocks[b := data], inodes, i, off, src, tot + m)
    ensures b in owner && sb.datastart <= b
  {
    var blocks' := blocks[b := data];
    SizeFact(sb, blocks, inodes, owner);
    hide Owns, Slot, ByteAt, Patched, Written, Mapped;
    DataWrite(sb, blocks, inodes, owner, i, (off + tot) / BSIZE, b, data);
    SlotsSame(sb, blocks, inodes, owner, b, data);
    WriteKeepsOwns(sb, blocks, inodes, owner, b, data);
    SlotsGrew(w.blocks, w.inodes, blocks, inodes, blocks', i);
    WrittenMore(w.blocks, w.inodes[i], blocks, inodes[i], blocks', off, src, tot, m, b, data);
    MappedMore(blocks, blocks', inodes[i], off, tot, m);
  }

  lemma WriteData(sb: Super, w: WriteLog, blocks: seq<Block>, inodes: Inodes, owner: Owners,
                  i: nat, off: nat, src: seq<Byte>, tot: nat, m: nat, b: nat, data: Block)
    requires Owns(sb, blocks, inodes, owner) && Marked(sb, blocks, owner, {}) && i in inodes
    requires |inodes[i].addrs| == NDIRECT + 1
    requires WriteInv(w, blocks, inodes, i, off, src, tot)
    requires 0 < m && tot + m <= |src| && InBlock(off + tot, m) && (tot == 0 || (off + tot) % BSIZE == 0)
    requires (off + tot) / BSIZE < MAXFILE && b == Slot(blocks, inodes[i], FileSlot((off + tot) / BSIZE)) && b != 0
    requires b < |blocks| && Overlay(blocks[b], data, (off + tot) % BSIZE, src[tot..tot + m])
    ensures var blocks' := blocks[b := data];
      && Owns(sb, blocks', inodes, owner) && Marked(sb, blocks', owner, {})
      && WriteInv(w, blocks', inodes, i, off, src, tot + m)
  {
    SizeFact(sb, blocks, inodes, owner);
    hide Owns, WriteInv, Slot;
    WriteChunkData(sb, w, blocks, inodes, owner, i, off, src, tot, m, b, data);
    WriteKeepsMarked(sb, blocks, owner, {}, b, data);
  }

  // ---------- The size of a write's transaction ----------

  datatype Cost = Cost(data: set<nat>, maps: set<nat>, it: nat, grew: bool)

  function Skip(off: nat, it: nat): (n: nat)
  {
    if off % BSIZE != 0 && it > 0 then 1 else 0
  }

  ghost predicate CostInv(before: set<nat>, logged: set<nat>, off: nat, tot: nat, c: Cost, ind: nat)
  {
    && logged <= before + c.data + c.maps + (if ind == 0 then {} else {ind})
    && c.it == Touched(off, tot) && |c.data| <= c.it
    && |c.maps| <= c.it - Skip(off, c.it) + (if c.grew then 1 else 0)
    && (c.grew ==> ind != 0)
  }

  lemma CostStart(logged: set<nat>, off: nat, ind: nat)
    ensures CostInv(logged, logged, off, 0, Cost({}, {}, 0, false), ind)
  {
  }

  lemma UnionSize(a: set<nat>, b: set<nat>)
    ensures |a + b| <= |a| + |b|
  {
    assert a + b == a + (b - a);
  }

  lemma TouchedMore(off: nat, tot: nat, m: nat)
    requires 0 < m && InBlock(off + tot, m) && (tot == 0 || (off + tot) % BSIZE == 0)
    ensures Touched(off, tot + m) == Touched(off, tot) + 1
  {
  }

  lemma TouchedZero(off: nat, tot: nat)
    ensures Touched(off, tot) == 0 <==> tot == 0
  {
  }

  lemma CostStep(before: set<nat>, l1: set<nat>, off: nat, tot: nat, m: nat, c: Cost, had: nat,
                 l2: set<nat>, ind: nat, bn: nat, wasMapped: bool, b: nat, maps: set<nat>)
    requires CostInv(before, l1, off, tot, c, had) && MapCost(l1, l2, ind, bn, wasMapped, had, b, maps)
    requires 0 < m && InBlock(off + tot, m) && (tot == 0 || (off + tot) % BSIZE == 0)
    requires tot == 0 && off % BSIZE != 0 ==> wasMapped
    ensures CostInv(before, l2 + {b}, off, tot + m,
                    Cost(c.data + {b}, c.maps + maps, c.it + 1, c.grew || (had == 0 && ind != 0)), ind)
  {
    hide Touched, InBlock;
    TouchedMore(off, tot, m);
    TouchedZero(off, tot);
    UnionSize(c.data, {b});
    UnionSize(c.maps, maps);
  }

  lemma CostEnd(before: set<nat>, logged: set<nat>, off: nat, n: nat, c: Cost, ind: nat, inodeBlock: nat)
    requires CostInv(before, logged, off, n, c, ind)
    ensures |logged + {inodeBlock}| <= |before| + WriteCost(off, n) && |logged| <= |before| + WriteCost(off, n)
  {
    var e := if ind == 0 then {} else {ind};
    var all := before + c.data + c.maps + e;
    UnionSize(before, c.data);
    UnionSize(before + c.data, c.maps);
    UnionSize(before + c.data + c.maps, e);
    UnionSize(all, {inodeBlock});
    SubsetSize(logged, all);
    SubsetSize(logged + {inodeBlock}, all + {inodeBlock});
  }

  lemma SubsetSize(a: set<nat>, b: set<nat>)
    requires a <= b
    ensures |a| <= |b|
  {
    assert b == a + (b - a);
  }

  // ---------- After the loop ----------

  lemma ResizeOwns(sb: Super, blocks: seq<Block>, inodes: Inodes, owner: Owners, i: nat, size: nat)
    requires Owns(sb, blocks, inodes, owner) && i in inodes
    ensures Owns(sb, blocks, inodes[i := inodes[i].(size := size)], owner)
  {
    var inodes' := inodes[i := inodes[i].(size := size)];
    SizeFact(sb, blocks, inodes, owner);
    assert forall j, s: nat :: j in inodes && s < SLOTS ==> Slot(blocks, inodes'[j], s) == Slot(blocks, inodes[j], s);
    hide Slot;
    forall b | b in owner
      ensures OwnerOk(sb, blocks, inodes', b, owner[b])
    {
      assert OwnerOk(sb, blocks, inodes, b, owner[b]);
    }
  }

  /** What the loop and the size update leave is the spliced file. */
  lemma SpliceIs(b0: seq<Block>, ip0: Inode, b1: seq<Block>, ip1: Inode, off: nat, src: seq<Byte>)
    requires Sized(ip0) && Sized(ip1) && off <= ip0.size && off + |src| <= MAXFILE * BSIZE
    requires Written(b0, ip0, b1, ip1, off, src, |src|)
    requires ip1.size == if off + |src| > ip0.size then off + |src| else ip0.size
    ensures Contents(b1, ip1) == Spliced(Contents(b0, ip0), off, src)
  {
    hide ByteAt;
    var c, d := Contents(b1, ip1), Spliced(Contents(b0, ip0), off, src);
    forall k | 0 <= k < ip1.size
      ensures c[k] == d[k]
    {
      assert c[k] == ByteAt(b1, ip1, k);
    }
  }

  lemma NoHolesAfter(b0: seq<Block>, n0: Inodes, b1: seq<Block>, n1: Inodes, i: nat, ip: Inode, off: nat, n: nat)
    requires Grew(b0, n0, b1, n1, i) && Sized(n0[i]) && NoHoles(b0, n0[i]) && Mapped(b1, n1[i], off, n)
    requires Sized(ip) && ip.addrs == n1[i].addrs && off <= n0[i].size
    requires ip.size == if n > 0 && off + n > n0[i].size then off + n else n0[i].size
    ensures NoHoles(b1, ip)
  {
    forall x | 0 <= x < MAXFILE && x * BSIZE < ip.size
      ensures Slot(b1, ip, FileSlot(x)) != 0
    {
      assert Slot(b1, ip, FileSlot(x)) == Slot(b1, n1[i], FileSlot(x));
      hide Slot;
      if x * BSIZE < n0[i].size {
        assert Slot(b0, n0[i], FileSlot(x)) != 0;
      } else {
        assert off / BSIZE <= x <= (off + n - 1) / BSIZE;
      }
    }
  }

  /** What the loop achieved, read off for the inode with its final size. */
  lemma WriteEnd(w: WriteLog, b1: seq<Block>, n1: Inodes, i: nat, off: nat, src: seq<Byte>)
    requires WriteInv(w, b1, n1, i, off, src, |src|) && off + |src| <= MAXFILE * BSIZE
    ensures i in n1 && n1.Keys == w.inodes.Keys && |n1[i].addrs| == NDIRECT + 1
    ensures n1[i].size == w.inodes[i].size && n1[i].kind == w.inodes[i].kind && n1[i].nlink == w.inodes[i].nlink
    ensures var grow := |src| > 0 && off + |src| > n1[i].size;
      var ip := if grow then n1[i].(size := off + |src|) else n1[i];
      && Sized(ip) && Contents(b1, ip) == Spliced(Contents(w.blocks, w.inodes[i]), off, src)
      && OthersSame(w.blocks, w.inodes, b1, if grow then n1[i := ip] else n1, i)
      && (NoHoles(w.blocks, w.inodes[i]) ==> NoHoles(b1, ip))
  {
    hide Contents, Spliced, NoHoles;
    FromGrew(w.blocks, w.inodes, b1, n1, i);
    KeysSame(w.blocks, w.inodes, b1, n1, i);
    hide Grew, OthersSame, Written, Mapped;
    var grow := |src| > 0 && off + |src| > n1[i].size;
    var ip := if grow then n1[i].(size := off + |src|) else n1[i];
    if grow {
      ResizeOthers(w.blocks, w.inodes, b1, n1, i, ip);
      ResizeWritten(w.blocks, w.inodes[i], b1, n1[i], off, src, off + |src|);
    }
    SpliceIs(w.blocks, w.inodes[i], b1, ip, off, src);
    if NoHoles(w.blocks, w.inodes[i]) {
      NoHolesAfter(w.blocks, w.inodes, b1, n1, i, ip, off, |src|);
    }
  }

  lemma KeysSame(b0: seq<Block>, n0: Inodes, b1: seq<Block>, n1: Inodes, i: nat)
    requires OthersSame(b0, n0, b1, n1, i)
    ensures n1.Keys == n0.Keys
  {
  }

  lemma ResizeOthers(b0: seq<Block>, n0: Inodes, b1: seq<Block>, n1: Inodes, i: nat, ip: Inode)
    requires OthersSame(b0, n0, b1, n1, i) && i in n0
    ensures OthersSame(b0, n0, b1, n1[i := ip], i)
  {
    hide ByteAt;
  }

  lemma ResizeWritten(b0: seq<Block>, ip0: Inode, b1: seq<Block>, ip1: Inode, off: nat, src: seq<Byte>, size: nat)
    requires Written(b0, ip0, b1, ip1, off, src, |src|)
    ensures Written(b0, ip0, b1, ip1.(size := size), off, src, |src|)
  {
    forall k: nat | k < MAXFILE * BSIZE
      ensures ByteAt(b1, ip1.(size := size), k) == ByteAt(b1, ip1, k)
    {
    }
  }

  lemma FromGrew(b0: seq<Block>, n0: Inodes, b1: seq<Block>, n1: Inodes, i: nat)
    requires Grew(b0, n0, b1, n1, i)
    ensures i in n1 && |n1[i].addrs| == NDIRECT + 1
    ensures n1[i].size == n0[i].size && n1[i].kind == n0[i].kind && n1[i].nlink == n0[i].nlink
  {
  }

  lemma BlockMapped(blocks: seq<Block>, ip: Inode, at: nat)
    requires Sized(ip) && at < ip.size
    ensures at / BSIZE < MAXFILE && (NoHoles(blocks, ip) ==> Slot(blocks, ip, FileSlot(at / BSIZE)) != 0)
  {
  }

  lemma SlotInRange(sb: Super, blocks: seq<Block>, inodes: Inodes, owner: Owners, i: nat, s: nat)
    requires Owns(sb, blocks, inodes, owner) && i in inodes && s < SLOTS && Slot(blocks, inodes[i], s) != 0
    ensures sb.bmapstart <= sb.datastart <= Slot(blocks, inodes[i], s) < |blocks|
  {
    var b := Slot(blocks, inodes[i], s);
    assert OwnerOk(sb, blocks, inodes, b, owner[b]);
  }

  lemma CopyChunk(b0: seq<Block>, n0: Inodes, blocks: seq<Block>, inodes: Inodes, i: nat, off: nat,
                  dst: seq<Byte>, chunk: seq<Byte>)
    requires SameBytes(b0, n0, blocks, inodes) && i in n0
    requires BytesAre(b0, n0[i], off, dst) && BytesAre(blocks, inodes[i], off + |dst|, chunk)
    ensures BytesAre(b0, n0[i], off, dst + chunk)
  {
    hide ByteAt;
    forall x | 0 <= x < |dst + chunk|
      ensures (dst + chunk)[x] == ByteAt(b0, n0[i], off + x)
    {
      if x >= |dst| {
        assert (dst + chunk)[x] == chunk[x - |dst|];
      }
    }
  }

  lemma SliceIs(blocks: seq<Block>, ip: Inode, off: nat, dst: seq<Byte>)
    requires Sized(ip) && off + |dst| <= ip.size && BytesAre(blocks, ip, off, dst)
    ensures dst == Contents(blocks, ip)[off..off + |dst|]
  {
    hide ByteAt;
  }

  lemma SlotKept(b0: seq<Block>, n0: Inodes, b1: seq<Block>, n1: Inodes, i: nat, s: nat)
    requires Grew(b0, n0, b1, n1, i) && s < SLOTS
    ensures Slot(b0, n0[i], s) != 0 ==> Slot(b1, n1[i], s) == Slot(b0, n0[i], s)
  {
  }

  lemma SlotEquals(blocks: seq<Block>, ip: Inode, bn: nat)
    requires |ip.addrs| == NDIRECT + 1 && bn < MAXFILE
    ensures bn < NDIRECT ==> Slot(blocks, ip, FileSlot(bn)) == ip.addrs[bn]
    ensures bn >= NDIRECT && 0 < ip.addrs[NDIRECT] < |blocks| ==>
      Slot(blocks, ip, FileSlot(bn)) == GetWord(blocks[ip.addrs[NDIRECT]], bn - NDIRECT)
    ensures bn >= NDIRECT && ip.addrs[NDIRECT] == 0 ==> Slot(blocks, ip, FileSlot(bn)) == 0
  {
  }

  lemma StartsSame(blocks: seq<Block>, inodes: Inodes, i: nat)
    requires i in inodes && forall j :: j in inodes ==> |inodes[j].addrs| == NDIRECT + 1
    ensures SameBytes(blocks, inodes, blocks, inodes) && Grew(blocks, inodes, blocks, inodes, i)
  {
    assert inodes == inodes[i := inodes[i].(addrs := inodes[i].addrs)];
  }
}
