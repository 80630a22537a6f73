/** The inode table on disk: eight 64-byte inodes to a block, each sixteen words. */
module Dinode {
  import opened Blocks
  import opened FsModel

  const IPB: nat := 8               // inodes per block
  const SHORT_LIMIT: nat := 0x1_0000
  const ADDR_WORD: nat := 3         // after type and major, minor and nlink, and size

  /** The block of the table that holds inode i. */
  function TableBlock(sb: Super, i: nat): (b: nat)
  {
    sb.inodestart + i / IPB
  }

  /** The inode has a place in the table and its fields fit the disk format. */
  predicate Storable(sb: Super, i: nat, ip: Inode)
  {
    TableBlock(sb, i) < sb.bmapstart && Sized(ip) && ip.kind < SHORT_LIMIT && ip.nlink < SHORT_LIMIT
  }

  predicate WordSized(addrs: seq<nat>)
  {
    forall j :: 0 <= j < |addrs| ==> addrs[j] < UINT_LIMIT
  }

  function AddrAt(b: Block, k: nat, j: nat): (a: nat)
    requires k < IPB
  {
    if j <= NDIRECT then GetWord(b, 16 * k + ADDR_WORD + j) else 0
  }

  function GetAddrs(b: Block, k: nat): (r: seq<nat>)
    requires k < IPB
    ensures |r| == NDIRECT + 1 && forall j :: 0 <= j <= NDIRECT ==> r[j] == AddrAt(b, k, j)
  {
    seq<nat>(NDIRECT + 1, (j: nat) => AddrAt(b, k, j))
  }

  /** Inode k of a table block. */
  function GetInode(b: Block, k: nat): (ip: Inode)
    requires k < IPB
  {
    Inode(Low(GetWord(b, 16 * k)), High(GetWord(b, 16 * k + 1)), GetWord(b, 16 * k + 2), GetAddrs(b, k))
  }

  function PutAddrs(b: Block, k: nat, addrs: seq<nat>, n: nat): (r: Block)
    requires k < IPB && n <= |addrs| == NDIRECT + 1 && WordSized(addrs)
  {
    if n == 0 then b else PutWord(PutAddrs(b, k, addrs, n - 1), 16 * k + ADDR_WORD + n - 1, addrs[n - 1])
  }

  /** Two 16-bit fields in one word. */
  function Pair(lo: nat, hi: nat): (w: nat)
    requires lo < SHORT_LIMIT && hi < SHORT_LIMIT
    ensures w < UINT_LIMIT && Low(w) == lo && High(w) == hi
  {
    hi * SHORT_LIMIT + lo
  }

  function Low(w: nat): (r: nat)
    ensures r < SHORT_LIMIT
  {
    w % SHORT_LIMIT
  }

  function High(w: nat): (r: nat)
    requires w < UINT_LIMIT
    ensures r < SHORT_LIMIT
  {
    w / SHORT_LIMIT
  }

  function PutThree(b: Block, a: nat, x: nat, y: nat, z: nat): (r: Block)
    requires a + 2 < WORDS && x < UINT_LIMIT && y < UINT_LIMIT && z < UINT_LIMIT
  {
    PutWord(PutWord(PutWord(b, a, x), a + 1, y), a + 2, z)
  }

  lemma ThreeWritten(b: Block, a: nat, x: nat, y: nat, z: nat, w: nat)
    requires a + 2 < WORDS && x < UINT_LIMIT && y < UINT_LIMIT && z < UINT_LIMIT && w < WORDS
    ensures GetWord(PutThree(b, a, x, y, z), w) ==
      if w == a + 2 then z else if w == a + 1 then y else if w == a then x else GetWord(b, w)
  {
    hide GetWord, PutWord;
    GetPutWord(b, a, x, w);
    GetPutWord(PutWord(b, a, x), a + 1, y, w);
    GetPutWord(PutWord(PutWord(b, a, x), a + 1, y), a + 2, z, w);
  }

  /** The words before the addresses; the device numbers stay. */
  function PutFields(b: Block, k: nat, ip: Inode): (r: Block)
    requires k < IPB && ip.kind < SHORT_LIMIT && ip.nlink < SHORT_LIMIT && ip.size < UINT_LIMIT
  {
    PutThree(b, 16 * k, Pair(ip.kind, High(GetWord(b, 16 * k))), Pair(Low(GetWord(b, 16 * k + 1)), ip.nlink), ip.size)
  }

  /** The block after iupdate has written inode k. */
  function PutInode(b: Block, k: nat, ip: Inode): (r: Block)
    requires k < IPB && ip.kind < SHORT_LIMIT && ip.nlink < SHORT_LIMIT && ip.size < UINT_LIMIT
    requires |ip.addrs| == NDIRECT + 1 && WordSized(ip.addrs)
  {
    PutAddrs(PutFields(b, k, ip), k, ip.addrs, NDIRECT + 1)
  }

  lemma {:induction false} AddrsWritten(b: Block, k: nat, addrs: seq<nat>, n: nat, w: nat)
    requires k < IPB && n <= |addrs| == NDIRECT + 1 && WordSized(addrs) && w < WORDS
    ensures GetWord(PutAddrs(b, k, addrs, n), w) ==
      var j := w - (16 * k + ADDR_WORD); if 0 <= j < n then addrs[j] else GetWord(b, w)
  {
    if n > 0 {
      AddrsWritten(b, k, addrs, n - 1, w);
      GetPutWord(PutAddrs(b, k, addrs, n - 1), 16 * k + ADDR_WORD + n - 1, addrs[n - 1], w);
    }
  }

  lemma FieldsWritten(b: Block, k: nat, ip: Inode, w: nat)
    requires k < IPB && ip.kind < SHORT_LIMIT && ip.nlink < SHORT_LIMIT && ip.size < UINT_LIMIT && w < WORDS
    ensures var r := PutFields(b, k, ip);
      && Low(GetWord(r, 16 * k)) == ip.kind && High(GetWord(r, 16 * k + 1)) == ip.nlink
      && GetWord(r, 16 * k + 2) == ip.size
      && (!(16 * k <= w < 16 * k + ADDR_WORD) ==> GetWord(r, w) == GetWord(b, w))
  {
    hide GetWord, PutThree, Pair, High, Low;
    var a, x := 16 * k, Pair(ip.kind, High(GetWord(b, 16 * k)));
    var y := Pair(Low(GetWord(b, a + 1)), ip.nlink);
    ThreeWritten(b, a, x, y, ip.size, a);
    ThreeWritten(b, a, x, y, ip.size, a + 1);
    ThreeWritten(b, a, x, y, ip.size, a + 2);
    ThreeWritten(b, a, x, y, ip.size, w);
  }

  /** What iupdate stores is what a later read of the inode loads, and the other inodes of the block stay. */
  lemma InodeRoundTrip(b: Block, k: nat, ip: Inode, j: nat)
    requires k < IPB && j < IPB && ip.kind < SHORT_LIMIT && ip.nlink < SHORT_LIMIT && ip.size < UINT_LIMIT
    requires |ip.addrs| == NDIRECT + 1 && WordSized(ip.addrs)
    ensures GetInode(PutInode(b, k, ip), j) == if j == k then ip else GetInode(b, j)
  {
    var f, r := PutFields(b, k, ip), PutInode(b, k, ip);
    hide GetWord, PutFields, PutAddrs;
    forall w | 16 * j <= w < 16 * j + 16
      ensures GetWord(r, w) ==
        if j == k && w >= 16 * k + ADDR_WORD then ip.addrs[w - 16 * k - ADDR_WORD] else GetWord(f, w)
    {
      AddrsWritten(f, k, ip.addrs, NDIRECT + 1, w);
    }
    if j == k {
      FieldsWritten(b, k, ip, 0);
      assert GetInode(r, k).addrs == ip.addrs;
    } else {
      forall w | 16 * j <= w < 16 * j + 16
        ensures GetWord(r, w) == GetWord(b, w)
      {
        FieldsWritten(b, k, ip, w);
      }
      assert GetInode(r, j).addrs == GetInode(b, j).addrs;
    }
  }
}
