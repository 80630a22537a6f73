/** mkfs's main: the whole image, from the list of files on the command line. */
module MkfsMain {
  import opened Blocks
  import opened Bitmap
  import opened Dinode
  import opened FsModel
  import opened Fs
  import opened Mkfs
  import opened MkfsModel
  import opened Params

  const NINODES: nat := 200
  const T_DIR: nat := 1
  const T_FILE: nat := 2
  const ROOTINO: nat := 1
  const DIRSIZ: nat := 14
  const DIRENT: nat := 16
  const BMAPSTART: nat := 2 + LOGSIZE + (NINODES / IPB + 1)

  /** boot block, superblock, log, inode table, bitmap, data */
  const MKFS_SUPER: Super := Super(FSSIZE, 2 + LOGSIZE, BMAPSTART, BMAPSTART + (FSSIZE / BPB + 1))

  function Dirent(inum: nat, name: seq<Byte>): (r: seq<Byte>)
    requires |name| == DIRSIZ
    ensures |r| == DIRENT
  {
    [inum % 0x100, inum / 0x100 % 0x100] + name
  }

  /** "." and "..", padded with zeros. */
  function Dots(n: nat): (name: seq<Byte>)
    ensures |name| == DIRSIZ
  {
    seq(DIRSIZ, k => if k < n then 46 else 0)
  }

  predicate Named(names: seq<seq<Byte>>)
  {
    forall k :: 0 <= k < |names| ==> |names[k]| == DIRSIZ
  }

  /** The root directory with its first n files. */
  function Listing(names: seq<seq<Byte>>, n: nat): (r: seq<Byte>)
    requires Named(names) && n <= |names|
    ensures |r| == (n + 2) * DIRENT
  {
    if n == 0 then Dirent(ROOTINO, Dots(1)) + Dirent(ROOTINO, Dots(2))
    else Listing(names, n - 1) + Dirent(n + 1, names[n - 1])
  }

  /** The k-th 16 bytes name an inode, low byte first, and hold its name. */
  predicate EntryAt(c: seq<Byte>, k: nat, inum: nat, name: seq<Byte>)
  {
    && 16 * (k + 1) <= |c| && c[16 * k] as int + 0x100 * c[16 * k + 1] as int == inum % 0x1_0000
    && c[16 * k + 2..16 * (k + 1)] == name
  }

  /** ".", ".." and the first n names, each with its inode. */
  predicate Entries(c: seq<Byte>, names: seq<seq<Byte>>, n: nat)
    requires n <= |names|
  {
    && EntryAt(c, 0, 1, [46, 0, 0, 0, 0, 0, 0, 0, 0, 0, 0, 0, 0, 0])
    && EntryAt(c, 1, 1, [46, 46, 0, 0, 0, 0, 0, 0, 0, 0, 0, 0, 0, 0])
    && forall k :: 0 <= k < n ==> EntryAt(c, k + 2, k + 2, names[k])
  }

  lemma Halves(x: nat)
    ensures x % 0x100 + 0x100 * (x / 0x100 % 0x100) == x % 0x1_0000
  {
    var q := x / 0x100;
    var p := q / 0x100;
    assert x == 0x100 * q + x % 0x100 && q == 0x100 * p + q % 0x100;
    Remains(x, p, x % 0x100 + 0x100 * (q % 0x100));
  }

  lemma Remains(x: nat, p: nat, r: nat)
    requires x == 0x1_0000 * p + r && r < 0x1_0000
    ensures x % 0x1_0000 == r
  {
  }

  lemma DirentBytes(inum: nat, name: seq<Byte>)
    requires |name| == DIRSIZ
    ensures var e := Dirent(inum, name);
      |e| == 16 && e[0] as int + 0x100 * e[1] as int == inum % 0x1_0000 && e[2..16] == name
  {
    Halves(inum);
  }

  lemma DirentIs(c: seq<Byte>, k: nat, inum: nat, name: seq<Byte>, d: seq<Byte>)
    requires |name| == DIRSIZ && |c| == DIRENT * k && Dirent(inum, name) <= d
    ensures EntryAt(c + d, k, inum, name)
  {
    hide Dirent;
    DirentBytes(inum, name);
    var e := Dirent(inum, name);
    assert (c + d)[16 * k] == e[0] && (c + d)[16 * k + 1] == e[1];
    assert (c + d)[16 * k + 2..16 * (k + 1)] == e[2..16];
  }

  lemma EntryStays(c: seq<Byte>, k: nat, inum: nat, name: seq<Byte>, d: seq<Byte>)
    requires EntryAt(c, k, inum, name) && c <= d
    ensures EntryAt(d, k, inum, name)
  {
    assert d[16 * k + 2..16 * (k + 1)] == c[16 * k + 2..16 * (k + 1)];
  }

  lemma EntriesStay(c: seq<Byte>, d: seq<Byte>, names: seq<seq<Byte>>, n: nat)
    requires n <= |names| && Entries(c, names, n) && c <= d
    ensures Entries(d, names, n)
  {
    hide EntryAt;
    EntryStays(c, 0, 1, [46, 0, 0, 0, 0, 0, 0, 0, 0, 0, 0, 0, 0, 0], d);
    EntryStays(c, 1, 1, [46, 46, 0, 0, 0, 0, 0, 0, 0, 0, 0, 0, 0, 0], d);
    forall k | 0 <= k < n
      ensures EntryAt(d, k + 2, k + 2, names[k])
    {
      EntryStays(c, k + 2, k + 2, names[k], d);
    }
  }

  lemma DotEntries(names: seq<seq<Byte>>)
    requires Named(names)
    ensures Entries(Listing(names, 0), names, 0)
  {
    assert Dots(1) == [46, 0, 0, 0, 0, 0, 0, 0, 0, 0, 0, 0, 0, 0];
    assert Dots(2) == [46, 46, 0, 0, 0, 0, 0, 0, 0, 0, 0, 0, 0, 0];
    var c, d := Dirent(ROOTINO, Dots(1)), Dirent(ROOTINO, Dots(2));
    hide Dirent, EntryAt;
    assert [] + (c + d) == c + d;
    DirentIs([], 0, ROOTINO, Dots(1), c + d);
    DirentIs(c, 1, ROOTINO, Dots(2), d);
  }

  lemma EntriesMore(c: seq<Byte>, names: seq<seq<Byte>>, n: nat)
    requires Named(names) && n < |names| && |c| == (n + 2) * DIRENT && Entries(c, names, n)
    ensures Entries(c + Dirent(n + 2, names[n]), names, n + 1)
  {
    hide Dirent, EntryAt;
    var d := Dirent(n + 2, names[n]);
    DirentIs(c, n + 2, n + 2, names[n], d);
    EntriesStay(c, c + d, names, n);
  }

  /** What the bytes of the root directory say. */
  lemma {:induction false} ListingEntries(names: seq<seq<Byte>>, n: nat)
    requires Named(names) && n <= |names|
    ensures Entries(Listing(names, n), names, n)
  {
    hide Dirent, Entries;
    if n == 0 {
      DotEntries(names);
    } else {
      ListingEntries(names, n - 1);
      EntriesMore(Listing(names, n - 1), names, n - 1);
    }
  }

  /** The root directory and n files have inodes, numbered in order. */
  ghost predicate Numbered(inodes: Inodes, n: nat)
  {
    forall i: nat :: i in inodes <==> ROOTINO <= i < n + 2
  }

  ghost predicate FileIs(blocks: seq<Block>, inodes: Inodes, i: nat, kind: nat, bytes: seq<Byte>)
  {
    && i in inodes && inodes[i].kind == kind && inodes[i].nlink == 1 && Sized(inodes[i])
    && Contents(blocks, inodes[i]) == bytes
  }

  /** The first n files are there, and the root directory lists them. */
  ghost predicate Listed(blocks: seq<Block>, inodes: Inodes, names: seq<seq<Byte>>, files: seq<seq<Byte>>, n: nat)
    requires Named(names) && n <= |names| == |files|
  {
    && Numbered(inodes, n) && FileIs(blocks, inodes, ROOTINO, T_DIR, Listing(names, n))
    && forall k :: 0 <= k < n ==> FileIs(blocks, inodes, k + 2, T_FILE, files[k])
  }

  // ---------- Copying one file ----------

  function Chunks(n: nat): (r: nat)
  {
    (n + BSIZE - 1) / BSIZE
  }

  lemma TouchedChunk(k: nat, m: nat)
    requires 0 < m <= BSIZE
    ensures Touched(k * BSIZE, m) == 1
  {
    assert k * BSIZE % BSIZE == 0;
  }

  lemma AppendedNone(blocks: seq<Block>, inodes: Inodes, i: nat)
    requires i in inodes && forall j :: j in inodes ==> Sized(inodes[j])
    ensures Appended(blocks, inodes, blocks, inodes, i, []) && Keeps(blocks, inodes, blocks, inodes, {i})
  {
    assert Contents(blocks, inodes[i]) + [] == Contents(blocks, inodes[i]);
  }

  lemma AppendedTrans(b0: seq<Block>, n0: Inodes, b1: seq<Block>, n1: Inodes, b2: seq<Block>, n2: Inodes, i: nat,
                      x: seq<Byte>, y: seq<Byte>)
    requires Appended(b0, n0, b1, n1, i, x) && Appended(b1, n1, b2, n2, i, y)
    requires Keeps(b0, n0, b1, n1, {i}) && Keeps(b1, n1, b2, n2, {i})
    ensures Appended(b0, n0, b2, n2, i, x + y) && Keeps(b0, n0, b2, n2, {i})
  {
    hide Contents;
    assert Contents(b0, n0[i]) + x + y == Contents(b0, n0[i]) + (x + y);
  }

  lemma SizeIs(b0: seq<Block>, n0: Inodes, b1: seq<Block>, n1: Inodes, i: nat, x: seq<Byte>)
    requires Appended(b0, n0, b1, n1, i, x)
    ensures i in n1 && n1[i].size == n0[i].size + |x|
  {
    assert |Contents(b1, n1[i])| == |Contents(b0, n0[i]) + x|;
  }

  /** The loop that reads a file in pieces of a block. */
  method CopyIn(img: Image, inum: nat, data: seq<Byte>) returns (ok: bool)
    requires img.Base()
    modifies img`blocks, img`inodes, img`owner, img`freeblock
    ensures ok ==> img.Base()
    ensures ok && old(img.Valid()) && inum in old(img.inodes) && old(img.inodes)[inum].size == 0 ==>
      && img.Valid() && Appended(old(img.blocks), old(img.inodes), img.blocks, img.inodes, inum, data)
      && Keeps(old(img.blocks), old(img.inodes), img.blocks, img.inodes, {inum})
      && img.freeblock <= old(img.freeblock) + 2 * Chunks(|data|)
    ensures !ok && old(img.Valid()) && inum in old(img.inodes) && old(img.inodes)[inum].size == 0 ==>
      |data| > MAXFILE * BSIZE || img.freeblock == img.sb.size < old(img.freeblock) + 2 * Chunks(|data|)
  {
    hide Filled, Appended, Keeps, Touched, Chunks;
    ChunksNone();
    ghost var b0, n0, f0 := img.blocks, img.inodes, img.freeblock;
    ghost var good := img.Valid() && inum in n0 && n0[inum].size == 0;
    if good {
      SizedFilled(img.sb, b0, n0, img.owner, f0, img.freeinode, 0, 0);
      AppendedNone(b0, n0, inum);
    }
    var p := 0;
    ghost var k := 0;
    ok := true;
    while p < |data|
      invariant ok && img.Base() && p <= |data| && k == Chunks(p) && (p == |data| || p == k * BSIZE)
      invariant good ==>
        && img.Valid() && Appended(b0, n0, img.blocks, img.inodes, inum, data[..p])
        && Keeps(b0, n0, img.blocks, img.inodes, {inum}) && img.freeblock <= f0 + 2 * k
      decreases |data| - p
    {
      var cc := if |data| - p < BSIZE then |data| - p else BSIZE;
      ghost var b1, n1 := img.blocks, img.inodes;
      if good {
        SizeIs(b0, n0, b1, n1, inum, data[..p]);
        TouchedChunk(k, cc);
      }
      ChunksMore(p, cc, |data|);
      ok := img.Iappend(inum, data[p..p + cc]);
      if !ok {
        return;
      }
      if good {
        AppendedTrans(b0, n0, b1, n1, img.blocks, img.inodes, inum, data[..p], data[p..p + cc]);
        assert data[..p] + data[p..p + cc] == data[..p + cc];
      }
      p := p + cc;
      k := k + 1;
    }
    assert data[..p] == data;
  }

  lemma ChunksMore(p: nat, cc: nat, n: nat)
    requires p % BSIZE == 0 && 0 < cc <= BSIZE && p + cc <= n
    ensures Chunks(p + cc) == Chunks(p) + 1 <= Chunks(n)
  {
  }

  lemma ChunksNone()
    ensures Chunks(0) == 0
  {
  }

  // ---------- Adding one file ----------

  lemma KeptFile(b0: seq<Block>, n0: Inodes, b1: seq<Block>, n1: Inodes, but: set<nat>, i: nat, kind: nat,
                 bytes: seq<Byte>)
    requires Keeps(b0, n0, b1, n1, but) && FileIs(b0, n0, i, kind, bytes) && i !in but
    ensures FileIs(b1, n1, i, kind, bytes)
  {
    hide Contents;
  }

  lemma GrownFile(b0: seq<Block>, n0: Inodes, b1: seq<Block>, n1: Inodes, i: nat, kind: nat, bytes: seq<Byte>,
                  x: seq<Byte>)
    requires Appended(b0, n0, b1, n1, i, x) && FileIs(b0, n0, i, kind, bytes)
    ensures FileIs(b1, n1, i, kind, bytes + x)
  {
    hide Contents;
  }

  /** The three calls of main's loop: a new inode, its name in the root directory, its bytes. */
  ghost predicate Calls(b0: seq<Block>, n0: Inodes, b1: seq<Block>, n1: Inodes, b2: seq<Block>, n2: Inodes,
                        b3: seq<Block>, n3: Inodes, inum: nat, entry: seq<Byte>, data: seq<Byte>)
  {
    && inum !in n0 && n1 == n0[inum := Inode(T_FILE, 1, 0, NoAddrs())] && Keeps(b0, n0, b1, n1, {})
    && Appended(b1, n1, b2, n2, ROOTINO, entry) && Keeps(b1, n1, b2, n2, {ROOTINO})
    && Appended(b2, n2, b3, n3, inum, data) && Keeps(b2, n2, b3, n3, {inum})
  }

  lemma RootMore(b0: seq<Block>, n0: Inodes, b1: seq<Block>, n1: Inodes, b2: seq<Block>, n2: Inodes, b3: seq<Block>,
                 n3: Inodes, inum: nat, entry: seq<Byte>, data: seq<Byte>, list: seq<Byte>)
    requires Calls(b0, n0, b1, n1, b2, n2, b3, n3, inum, entry, data)
    requires FileIs(b0, n0, ROOTINO, T_DIR, list) && inum != ROOTINO
    ensures FileIs(b3, n3, ROOTINO, T_DIR, list + entry)
  {
    hide FileIs, Keeps, Appended;
    KeptFile(b0, n0, b1, n1, {}, ROOTINO, T_DIR, list);
    GrownFile(b1, n1, b2, n2, ROOTINO, T_DIR, list, entry);
    KeptFile(b2, n2, b3, n3, {inum}, ROOTINO, T_DIR, list + entry);
  }

  lemma FileMore(b0: seq<Block>, n0: Inodes, b1: seq<Block>, n1: Inodes, b2: seq<Block>, n2: Inodes, b3: seq<Block>,
                 n3: Inodes, inum: nat, entry: seq<Byte>, data: seq<Byte>)
    requires Calls(b0, n0, b1, n1, b2, n2, b3, n3, inum, entry, data) && inum != ROOTINO
    ensures FileIs(b3, n3, inum, T_FILE, data) && n3.Keys == n0.Keys + {inum}
  {
    assert Contents(b1, n1[inum]) == [];
    hide Contents, Keeps;
    assert FileIs(b1, n1, inum, T_FILE, []);
    assert n3.Keys == n1.Keys;
    hide FileIs, Appended;
    KeptFile(b1, n1, b2, n2, {ROOTINO}, inum, T_FILE, []);
    GrownFile(b2, n2, b3, n3, inum, T_FILE, [], data);
    assert [] + data == data;
  }

  lemma ListedMore(b0: seq<Block>, n0: Inodes, b1: seq<Block>, n1: Inodes, b2: seq<Block>, n2: Inodes, b3: seq<Block>,
                   n3: Inodes, names: seq<seq<Byte>>, files: seq<seq<Byte>>, n: nat)
    requires Named(names) && n < |names| == |files| && Listed(b0, n0, names, files, n)
    requires Calls(b0, n0, b1, n1, b2, n2, b3, n3, n + 2, Dirent(n + 2, names[n]), files[n])
    ensures Listed(b3, n3, names, files, n + 1)
  {
    hide FileIs, Calls, Dirent;
    RootMore(b0, n0, b1, n1, b2, n2, b3, n3, n + 2, Dirent(n + 2, names[n]), files[n], Listing(names, n));
    FileMore(b0, n0, b1, n1, b2, n2, b3, n3, n + 2, Dirent(n + 2, names[n]), files[n]);
    assert Numbered(n3, n + 1);
    forall k | 0 <= k < n
      ensures FileIs(b3, n3, k + 2, T_FILE, files[k])
    {
      CallsKeep(b0, n0, b1, n1, b2, n2, b3, n3, n + 2, Dirent(n + 2, names[n]), files[n], k + 2, files[k]);
    }
  }

  lemma CallsKeep(b0: seq<Block>, n0: Inodes, b1: seq<Block>, n1: Inodes, b2: seq<Block>, n2: Inodes, b3: seq<Block>,
                  n3: Inodes, inum: nat, entry: seq<Byte>, data: seq<Byte>, i: nat, bytes: seq<Byte>)
    requires Calls(b0, n0, b1, n1, b2, n2, b3, n3, inum, entry, data)
    requires FileIs(b0, n0, i, T_FILE, bytes) && ROOTINO < i < inum
    ensures FileIs(b3, n3, i, T_FILE, bytes)
  {
    hide FileIs, Keeps, Appended;
    KeptFile(b0, n0, b1, n1, {}, i, T_FILE, bytes);
    KeptFile(b1, n1, b2, n2, {ROOTINO}, i, T_FILE, bytes);
    KeptFile(b2, n2, b3, n3, {inum}, i, T_FILE, bytes);
  }

  /** One turn of main's loop over the files. */
  method AddFile(img: Image, names: seq<seq<Byte>>, files: seq<seq<Byte>>, n: nat) returns (ok: bool)
    requires img.Base() && Named(names) && n < |names| == |files| && img.freeinode == n + 2
    modifies img
    ensures ok ==> img.Base() && img.freeinode == n + 3
    ensures ok && old(Going(img, names, files, n)) && n + 2 < TableEnd(img.sb) ==>
      && Going(img, names, files, n + 1) && img.freeblock <= old(img.freeblock) + 2 + 2 * Chunks(|files[n]|)
      && Entries(Contents(img.blocks, img.inodes[ROOTINO]), names, n + 1)
    ensures !ok && old(Going(img, names, files, n)) && n + 2 < TableEnd(img.sb) ==>
      || |files[n]| > MAXFILE * BSIZE || (n + 3) * DIRENT > MAXFILE * BSIZE
      || img.freeblock == img.sb.size < old(img.freeblock) + 2 + 2 * Chunks(|files[n]|)
  {
    hide Filled, Appended, Keeps, Touched, Listed, Dirent, Entries, Contents;
    ghost var b0, n0 := img.blocks, img.inodes;
    ghost var good := Going(img, names, files, n) && n + 2 < TableEnd(img.sb);
    var inum;
    ok, inum := img.Ialloc(T_FILE);
    if !ok {
      return;
    }
    ghost var b1, n1 := img.blocks, img.inodes;
    if good {
      RootThere(b0, n0, b1, n1, names, files, n, inum);
    }
    ok := img.Iappend(ROOTINO, Dirent(inum, names[n]));
    if !ok {
      return;
    }
    ghost var b2, n2 := img.blocks, img.inodes;
    if good {
      FileThere(b1, n1, b2, n2, inum);
    }
    ok := CopyIn(img, inum, files[n]);
    if ok && good {
      ListedMore(b0, n0, b1, n1, b2, n2, img.blocks, img.inodes, names, files, n);
      ListedRoot(img.blocks, img.inodes, names, files, n + 1);
    }
  }

  lemma ListedRoot(blocks: seq<Block>, inodes: Inodes, names: seq<seq<Byte>>, files: seq<seq<Byte>>, n: nat)
    requires Named(names) && n <= |names| == |files| && Listed(blocks, inodes, names, files, n)
    ensures ROOTINO in inodes && Sized(inodes[ROOTINO]) && Entries(Contents(blocks, inodes[ROOTINO]), names, n)
  {
    hide Contents, Entries;
    ListingEntries(names, n);
  }

  ghost predicate Going(img: Image, names: seq<seq<Byte>>, files: seq<seq<Byte>>, n: nat)
    requires Named(names) && n <= |names| == |files|
    reads img
  {
    img.Valid() && Listed(img.blocks, img.inodes, names, files, n)
  }

  lemma RootThere(b0: seq<Block>, n0: Inodes, b1: seq<Block>, n1: Inodes, names: seq<seq<Byte>>, files: seq<seq<Byte>>,
                  n: nat, inum: nat)
    requires Named(names) && n < |names| == |files| && Listed(b0, n0, names, files, n) && inum == n + 2
    requires n1 == n0[inum := Inode(T_FILE, 1, 0, NoAddrs())] && Keeps(b0, n0, b1, n1, {})
    ensures ROOTINO in n1 && n1[ROOTINO].size == (n + 2) * DIRENT && Touched(n1[ROOTINO].size, DIRENT) == 1
  {
    hide Contents, Touched;
    assert |Contents(b0, n0[ROOTINO])| == |Listing(names, n)|;
    TouchedEntry(n + 2);
  }

  lemma TouchedEntry(k: nat)
    ensures Touched(k * DIRENT, DIRENT) == 1
  {
    var o := k * DIRENT % BSIZE;
    assert o + DIRENT <= BSIZE;
  }

  lemma FileThere(b1: seq<Block>, n1: Inodes, b2: seq<Block>, n2: Inodes, inum: nat)
    requires inum in n1 && n1[inum].size == 0 && inum != ROOTINO && Keeps(b1, n1, b2, n2, {ROOTINO})
    ensures inum in n2 && n2[inum].size == 0
  {
    hide Contents;
  }

  // ---------- The whole image ----------

  /** The kernel finds a consistent file system with an exact inode table. The root directory has an entry for each file
      with its name and inode number, and each file has its bytes and no hole. */
  ghost predicate Complete(sb: Super, blocks: seq<Block>, inodes: Inodes, owner: Owners, names: seq<seq<Byte>>,
                           files: seq<seq<Byte>>)
    requires Named(names) && |names| == |files|
  {
    && Consistent(sb, blocks, inodes, owner) && Synced(sb, blocks, inodes) && Numbered(inodes, |files|)
    && ROOTINO in inodes && inodes[ROOTINO].kind == 1 && Sized(inodes[ROOTINO])
    && Entries(Contents(blocks, inodes[ROOTINO]), names, |files|)
    && forall k :: 0 <= k < |files| ==> WholeFile(blocks, inodes, k + 2, files[k])
  }

  ghost predicate WholeFile(blocks: seq<Block>, inodes: Inodes, i: nat, bytes: seq<Byte>)
  {
    FileIs(blocks, inodes, i, 2, bytes) && NoHoles(blocks, inodes[i])
  }

  lemma FileDone(b0: seq<Block>, n0: Inodes, b1: seq<Block>, n1: Inodes, b2: seq<Block>, limit: nat, i: nat,
                 bytes: seq<Byte>)
    requires FileIs(b0, n0, i, T_FILE, bytes) && Keeps(b0, n0, b1, n1, {ROOTINO}) && i != ROOTINO
    requires Tight(b1, n1, ROOTINO, limit) && SameBytes(b1, n1, b2, n1) && SameSlots(b1, b2, n1)
    ensures WholeFile(b2, n1, i, bytes)
  {
    KeptFile(b0, n0, b1, n1, {ROOTINO}, i, T_FILE, bytes);
    hide NoHoles, Keeps, Slot;
    assert Exact(b1, n1[i]);
    HolesSame(b1, b2, n1, i);
    hide SameSlots, ByteAt;
  }

  lemma RootListed(blocks: seq<Block>, inodes: Inodes, names: seq<seq<Byte>>, files: seq<seq<Byte>>)
    requires Named(names) && |names| == |files| && Listed(blocks, inodes, names, files, |files|)
    ensures ROOTINO in inodes && inodes[ROOTINO].kind == T_DIR && Sized(inodes[ROOTINO])
    ensures Contents(blocks, inodes[ROOTINO]) == Listing(names, |files|)
  {
    hide Contents, Listing;
  }

  lemma RoundedKind(ip: Inode)
    ensures Rounded(ip).kind == ip.kind
  {
  }

  lemma Completed(sb: Super, b0: seq<Block>, n0: Inodes, b1: seq<Block>, n1: Inodes, b2: seq<Block>, owner: Owners,
                  limit: nat, names: seq<seq<Byte>>, files: seq<seq<Byte>>)
    requires Named(names) && |names| == |files| && Listed(b0, n0, names, files, |files|)
    requires n1 == n0[ROOTINO := Rounded(n0[ROOTINO])] && Keeps(b0, n0, b1, n1, {ROOTINO})
    requires Sized(n1[ROOTINO]) && Contents(b0, n0[ROOTINO]) <= Contents(b1, n1[ROOTINO])
    requires Tight(b1, n1, ROOTINO, limit) && SameBytes(b1, n1, b2, n1) && SameSlots(b1, b2, n1)
    requires Consistent(sb, b2, n1, owner) && Synced(sb, b2, n1)
    ensures Complete(sb, b2, n1, owner, names, files)
  {
    hide Consistent, Synced, Contents, NoHoles, Keeps, Tight, SameBytes, SameSlots, Listing, Rounded, Entries;
    SameRead(b1, b2, n1, ROOTINO);
    RootListed(b0, n0, names, files);
    assert ROOTINO in n1 && n1[ROOTINO].kind == T_DIR by { RoundedKind(n0[ROOTINO]); }
    hide FileIs, WholeFile;
    forall k | 0 <= k < |files|
      ensures WholeFile(b2, n1, k + 2, files[k])
    {
      FileDone(b0, n0, b1, n1, b2, limit, k + 2, files[k]);
    }
    assert Numbered(n1, |files|);
    ListingEntries(names, |files|);
    EntriesStay(Listing(names, |files|), Contents(b2, n1[ROOTINO]), names, |files|);
  }

  lemma SameRead(b1: seq<Block>, b2: seq<Block>, inodes: Inodes, i: nat)
    requires SameBytes(b1, inodes, b2, inodes) && i in inodes && Sized(inodes[i])
    ensures Contents(b2, inodes[i]) == Contents(b1, inodes[i])
  {
    hide ByteAt;
  }

  /** With one file too many a complete image would have to have a file's inode at the start of the bitmap. */
  lemma InodeInMap(blocks: seq<Block>, inodes: Inodes, owner: Owners, names: seq<seq<Byte>>, files: seq<seq<Byte>>)
    requires Named(names) && |names| == |files| && |files| + 1 >= TableLimit(MKFS_SUPER) && |blocks| == FSSIZE
    ensures Complete(MKFS_SUPER, blocks, inodes, owner, names, files) ==> GetInode(blocks[BMAPSTART], 0).kind == T_FILE
  {
    hide Consistent, GetInode, Contents, NoHoles, Entries;
    if Complete(MKFS_SUPER, blocks, inodes, owner, names, files) {
      var i: nat := TableLimit(MKFS_SUPER);
      assert WholeFile(blocks, inodes, (i - 2) + 2, files[i - 2]);
      assert OnDisk(MKFS_SUPER, blocks, i, inodes[i]);
    }
  }

  function Room(files: seq<seq<Byte>>, n: nat): (r: nat)
    requires n <= |files|
  {
    if n == 0 then 4 else Room(files, n - 1) + 2 + 2 * Chunks(|files[n - 1]|)
  }

  lemma {:induction false} RoomGrows(files: seq<seq<Byte>>, n: nat, m: nat)
    requires n <= m <= |files|
    ensures Room(files, n) <= Room(files, m)
  {
    if n < m {
      RoomGrows(files, n, m - 1);
    }
  }

  /** No file is too long, there are inode blocks and, counted generously, data blocks for all. */
  predicate AllFit(files: seq<seq<Byte>>)
  {
    && |files| + 2 <= TableEnd(MKFS_SUPER) && MKFS_SUPER.datastart + Room(files, |files|) <= FSSIZE
    && forall k :: 0 <= k < |files| ==> |files[k]| <= MAXFILE * BSIZE
  }

  /** The root directory with "." and "..". */
  method MakeRoot(super: Block, ghost names: seq<seq<Byte>>, ghost files: seq<seq<Byte>>) returns (img: Image, ok: bool)
    requires Named(names) && |names| == |files|
    ensures ok && fresh(img) && img.sb == MKFS_SUPER && img.Base() && img.freeinode == 2
    ensures Going(img, names, files, 0) && img.freeblock <= MKFS_SUPER.datastart + 4
  {
    hide Filled, Appended, Keeps, Touched, Dirent, Contents;
    img := new Image(MKFS_SUPER, super);
    var root;
    ok, root := img.Ialloc(T_DIR);
    ghost var b0, n0 := img.blocks, img.inodes;
    TouchedEntry(0);
    EmptyFile(b0, n0[ROOTINO]);
    ok := img.Iappend(root, Dirent(ROOTINO, Dots(1)));
    ghost var b1, n1 := img.blocks, img.inodes;
    SizeIs(b0, n0, b1, n1, ROOTINO, Dirent(ROOTINO, Dots(1)));
    GrownFile(b0, n0, b1, n1, ROOTINO, T_DIR, [], Dirent(ROOTINO, Dots(1)));
    TouchedEntry(1);
    ok := img.Iappend(root, Dirent(ROOTINO, Dots(2)));
    GrownFile(b1, n1, img.blocks, img.inodes, ROOTINO, T_DIR, [] + Dirent(ROOTINO, Dots(1)), Dirent(ROOTINO, Dots(2)));
    assert [] + Dirent(ROOTINO, Dots(1)) + Dirent(ROOTINO, Dots(2)) == Listing(names, 0);
    SameKeys(b0, n0, b1, n1, ROOTINO, Dirent(ROOTINO, Dots(1)));
    SameKeys(b1, n1, img.blocks, img.inodes, ROOTINO, Dirent(ROOTINO, Dots(2)));
  }

  lemma SameKeys(b0: seq<Block>, n0: Inodes, b1: seq<Block>, n1: Inodes, i: nat, x: seq<Byte>)
    requires Appended(b0, n0, b1, n1, i, x)
    ensures n1.Keys == n0.Keys
  {
  }

  lemma EmptyFile(blocks: seq<Block>, ip: Inode)
    requires Sized(ip) && ip.size == 0
    ensures Contents(blocks, ip) == []
  {
  }

  /** main. When it succeeds, the image is complete exactly if the inode of the last file has its place before the
      bitmap; and it succeeds if everything fits. */
  method Build(super: Block, names: seq<seq<Byte>>, files: seq<seq<Byte>>) returns (img: Image, ok: bool)
    requires Named(names) && |names| == |files|
    ensures AllFit(files) ==> ok
    ensures ok ==> img.sb == Super(1000, 32, 58, 59) && |img.blocks| == 1000
    ensures ok ==> (|files| + 1 < TableLimit(MKFS_SUPER) <==>
      exists inodes, owner :: Complete(MKFS_SUPER, img.blocks, inodes, owner, names, files))
    ensures ok && |files| + 1 < TableLimit(MKFS_SUPER) ==>
      && Complete(MKFS_SUPER, img.blocks, img.inodes, img.owner, names, files)
      && (NoHoles(img.blocks, img.inodes[ROOTINO]) <==> (|files| + 2) * DIRENT % BSIZE != 0)
      && forall b: nat :: b < MKFS_SUPER.inodestart && b != 1 ==> img.blocks[b] == ZeroBlock()
  {
    hide Filled, Listed, Keeps, Contents, OnDisk, Consistent, Synced, SameBytes, SameSlots, NoHoles, AllFit;
    hide FileIs, GetInode;
    img, ok := MakeRoot(super, names, files);
    var n := 0;
    while n < |files|
      invariant ok && n <= |files| && img.Base() && img.sb == MKFS_SUPER && fresh(img) && img.freeinode == n + 2
      invariant n + 2 <= TableEnd(MKFS_SUPER) ==>
        Going(img, names, files, n) && img.freeblock <= MKFS_SUPER.datastart + Room(files, n)
    {
      FitsNext(files, n);
      ok := AddFile(img, names, files, n);
      if !ok {
        return;
      }
      n := n + 1;
    }
    ghost var b0, n0, good := img.blocks, img.inodes, n + 2 <= TableEnd(MKFS_SUPER);
    if good {
      RootSize(b0, n0, names, files);
    }
    ok := img.RoundRoot(ROOTINO);
    ghost var b1, n1 := img.blocks, img.inodes;
    ghost var limit := if ROOTINO in n0 then n0[ROOTINO].size else 0;
    ok := img.Balloc(ROOTINO, limit);
    if |files| + 1 < TableLimit(MKFS_SUPER) {
      TightOf(MKFS_SUPER, b1, n1, img.owner, img.freeblock, img.freeinode, limit);
      Completed(MKFS_SUPER, b0, n0, b1, n1, img.blocks, img.owner, limit, names, files);
      HolesSame(b1, img.blocks, n1, ROOTINO);
    } else {
      forall inodes, owner
        ensures !Complete(MKFS_SUPER, img.blocks, inodes, owner, names, files)
      {
        InodeInMap(img.blocks, inodes, owner, names, files);
      }
    }
  }

  lemma FitsNext(files: seq<seq<Byte>>, n: nat)
    requires n < |files|
    ensures AllFit(files) ==>
      && n + 3 <= TableEnd(MKFS_SUPER) && |files[n]| <= MAXFILE * BSIZE
      && MKFS_SUPER.datastart + Room(files, n) + 2 + 2 * Chunks(|files[n]|) <= FSSIZE
    ensures Room(files, n + 1) == Room(files, n) + 2 + 2 * Chunks(|files[n]|)
  {
    RoomGrows(files, n + 1, |files|);
  }

  lemma RootSize(blocks: seq<Block>, inodes: Inodes, names: seq<seq<Byte>>, files: seq<seq<Byte>>)
    requires Named(names) && |names| == |files| && Listed(blocks, inodes, names, files, |files|)
    requires |files| + 2 <= TableEnd(MKFS_SUPER)
    ensures ROOTINO in inodes && inodes[ROOTINO].size == (|files| + 2) * DIRENT
    ensures inodes[ROOTINO].size / BSIZE < MAXFILE
  {
    hide Contents;
    assert |Contents(blocks, inodes[ROOTINO])| == |Listing(names, |files|)|;
  }

  lemma TightOf(sb: Super, blocks: seq<Block>, inodes: Inodes, owner: Owners, freeblock: nat, freeinode: nat,
                limit: nat)
    requires Filled(sb, blocks, inodes, owner, freeblock, freeinode, ROOTINO, limit)
    ensures Tight(blocks, inodes, ROOTINO, limit) && forall j :: j in inodes ==> Sized(inodes[j])
  {
  }

  // ---------- Two images ----------

  lemma {:induction false} RoomSmall(files: seq<seq<Byte>>, n: nat)
    requires n <= |files| && forall k :: 0 <= k < |files| ==> |files[k]| <= BSIZE
    ensures Room(files, n) <= 4 + 4 * n
  {
    if n > 0 {
      RoomSmall(files, n - 1);
      assert |files[n - 1]| <= BSIZE;
    }
  }

  /** n copies of a one-byte file. */
  function Copies(n: nat, x: Byte): (files: seq<seq<Byte>>)
    ensures |files| == n && forall k :: 0 <= k < n ==> |files[k]| == 1
  {
    seq(n, k => [x])
  }

  function SameName(n: nat): (names: seq<seq<Byte>>)
    ensures |names| == n && Named(names)
  {
    seq(n, k => Dots(3))
  }

  /** With 30 files the root directory fills its block, and rounding its size gives it a hole. */
  method HoleInRoot(super: Block, x: Byte) returns (img: Image, ok: bool)
    ensures ok && ROOTINO in img.inodes && Sized(img.inodes[ROOTINO]) && !NoHoles(img.blocks, img.inodes[ROOTINO])
    ensures Complete(MKFS_SUPER, img.blocks, img.inodes, img.owner, SameName(30), Copies(30, x))
  {
    hide Consistent, Synced, NoHoles, Contents, FileIs, Listing, Room;
    RoomSmall(Copies(30, x), 30);
    img, ok := Build(super, SameName(30), Copies(30, x));
  }

  /** 207 one-byte files: mkfs succeeds, but the inode of the last one is lost. With 206 it is not. */
  method OneFileTooMany(super: Block, x: Byte) returns (img: Image, ok: bool)
    ensures ok && |img.blocks| == FSSIZE
    ensures forall inodes, owner ::
      !Complete(MKFS_SUPER, img.blocks, inodes, owner, SameName(207), Copies(207, x))
  {
    hide Complete, Room;
    RoomSmall(Copies(207, x), 207);
    img, ok := Build(super, SameName(207), Copies(207, x));
  }
}
