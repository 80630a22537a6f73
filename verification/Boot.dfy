/** From mkfs to a crash: the image that mkfs makes is one that the kernel boots from, and the crash theorem holds for
    every write to its files. */
module Boot {
  import opened Blocks
  import opened FsModel
  import opened Fs
  import opened FileLayer
  import opened FileCrash
  import opened LogMachine
  import opened Mkfs
  import opened MkfsMain
  import opened MkfsModel
  import opened Options
  import opened Params
  import LC = LogCrash
  import LI = LogImages
  import LL = LogLimits

  /** The machine that boots from an image. */
  function Booted(image: Disk): (s: State)
  {
    State(image, [], map[], 0, [], Idle, [], [], [])
  }

  /** The sectors that mkfs leaves zero before the inode table, the log's header among them. */
  predicate LogZero(image: Disk)
  {
    |image| == FSSIZE && forall b: nat :: b < MKFS_SUPER.inodestart && b != 1 ==> image[b] == ZeroBlock()
  }

  /** The log of the image is empty, holds every group that can commit, and lies before the inode table. */
  lemma ImageBoots(image: Disk)
    requires LogZero(image)
    ensures Init(LL.MKFS_LOG, Booted(image)) && LC.RoomyLog(LL.MKFS_LOG, image)
    ensures Laid(LL.MKFS_LOG, MKFS_SUPER, image) && LC.HomeBlocksEqual(LL.MKFS_LOG, image, image)
  {
    assert image[2] == ZeroBlock();
    ZeroWord(0);
  }

  /** The files that mkfs has put into the image, but for file k, which has got the first n bytes of the data at off. */
  ghost predicate Survives(d: Disk, im: Snapshot, files: seq<seq<Byte>>, k: nat, off: nat, addr: seq<Byte>, n: nat)
    requires k < |files| && off <= |files[k]| && n <= |addr|
  {
    && Mounted(MKFS_SUPER, d, im) && Synced(MKFS_SUPER, d, im.inodes)
    && forall j :: 0 <= j < |files| ==>
         HasBytes(d, im, j + 2, if j == k then Spliced(files[k], off, addr[..n]) else files[j])
  }

  ghost predicate HasBytes(d: Disk, im: Snapshot, i: nat, bytes: seq<Byte>)
  {
    i in im.inodes && Sized(im.inodes[i]) && Contents(d, im.inodes[i]) == bytes
  }

  /** mkfs, boot, a write to one of the files that nobody interrupts, a crash anywhere, recovery. Whenever it completes,
      the file system is consistent, that file has got a whole number of pieces, and every other file is as mkfs left
      it. */
  lemma FirstWriteSurvives(blocks: Disk, inodes: Inodes, owner: Owners, names: seq<seq<Byte>>, files: seq<seq<Byte>>,
                           k: nat, images: seq<Snapshot>, off: nat, addr: seq<Byte>, run: seq<Step>, reboot: seq<Step>,
                           idx: seq<nat>, c: nat)
    requires Named(names) && |names| == |files| && k < |files| && off <= |files[k]| && LogZero(blocks)
    requires Complete(MKFS_SUPER, blocks, inodes, owner, names, files)
    requires Undisturbed(MKFS_SUPER, images, k + 2, off, addr) && images[0] == Snapshot(blocks, inodes, owner, {})
    requires Index(idx, |images|) && LI.Serves(LL.MKFS_LOG, Booted(blocks), run, Picked(images, idx), c)
    requires LC.Reboot(reboot) && Exec(LL.MKFS_LOG, Booted(blocks), run + [Crash] + reboot).Some?
    ensures var j := LI.Surviving(Exec(LL.MKFS_LOG, Booted(blocks), run).value, c);
      var after := Exec(LL.MKFS_LOG, Booted(blocks), run + [Crash] + reboot).value;
      j < |idx| && (after.phase == Idle ==>
        Survives(after.disk, images[idx[j]], files, k, off, addr, Pieces(idx[j], |addr|)))
  {
    ImageBoots(blocks);
    FileFacts(blocks, inodes, owner, names, files, k);
    hide Exec, LI.Serves, Holds, NoHoles, Synced, LC.Reboot, Pieces, Complete, Init, LC.RoomyLog, LogZero, Survives;
    var g, s0, turns := LL.MKFS_LOG, Booted(blocks), Alone(|images| - 1);
    WriteSurvivesCrash(g, MKFS_SUPER, s0, run, reboot, images, turns, idx, c, k + 2, off, addr);
    hide History;
    var j, after := LI.Surviving(Exec(g, s0, run).value, c), Exec(g, s0, run + [Crash] + reboot).value;
    if after.phase == Idle {
      CountAlone(|images| - 1, idx[j]);
      SurvivesAll(blocks, inodes, owner, names, files, k, images[idx[j]], off, addr, Pieces(idx[j], |addr|),
                  after.disk);
    }
  }

  lemma FileFacts(blocks: Disk, inodes: Inodes, owner: Owners, names: seq<seq<Byte>>, files: seq<seq<Byte>>, k: nat)
    requires Named(names) && |names| == |files| && k < |files|
    requires Complete(MKFS_SUPER, blocks, inodes, owner, names, files)
    ensures Consistent(MKFS_SUPER, blocks, inodes, owner) && Synced(MKFS_SUPER, blocks, inodes)
    ensures FileIs(blocks, inodes, k + 2, T_FILE, files[k]) && NoHoles(blocks, inodes[k + 2])
    ensures forall i: nat :: i in inodes <==> 0 < i <= |files| + 1
  {
    hide Consistent, Synced, Contents, NoHoles, Listing;
    assert WholeFile(blocks, inodes, k + 2, files[k]);
  }

  lemma SurvivesAll(blocks: Disk, inodes: Inodes, owner: Owners, names: seq<seq<Byte>>, files: seq<seq<Byte>>, k: nat,
                    im: Snapshot, off: nat, addr: seq<Byte>, n: nat, d: Disk)
    requires Named(names) && |names| == |files| && k < |files| && off <= |files[k]| && n <= |addr|
    requires Complete(MKFS_SUPER, blocks, inodes, owner, names, files)
    requires Holds(MKFS_SUPER, d, Snapshot(blocks, inodes, owner, {}), im, k + 2, off, addr, n, true)
    ensures Survives(d, im, files, k, off, addr, n)
  {
    hide Consistent, Synced, Complete, Contents, Spliced, NoHoles, OthersSame, SameBytes, HasBytes;
    forall j | 0 <= j < |files|
      ensures HasBytes(d, im, j + 2, if j == k then Spliced(files[k], off, addr[..n]) else files[j])
    {
      FileFacts(blocks, inodes, owner, names, files, j);
      if j == k {
        OwnBytes(d, im, k + 2, Spliced(files[k], off, addr[..n]));
      } else {
        OtherBytes(blocks, inodes, d, im, k + 2, j + 2, files[j]);
      }
    }
  }

  lemma OwnBytes(d: Disk, im: Snapshot, i: nat, bytes: seq<Byte>)
    requires HasFile(im, i) && Contents(d, im.inodes[i]) == bytes
    ensures HasBytes(d, im, i, bytes)
  {
    hide Contents;
  }

  lemma OtherBytes(blocks: Disk, inodes: Inodes, d: Disk, im: Snapshot, ip: nat, i: nat, bytes: seq<Byte>)
    requires OthersSame(blocks, inodes, d, im.inodes, ip) && i != ip && FileIs(blocks, inodes, i, T_FILE, bytes)
    ensures HasBytes(d, im, i, bytes)
  {
    hide ByteAt;
  }

  /** Such a write, from the command line of mkfs on. */
  method MkfsThenWrite(super: Block, names: seq<seq<Byte>>, files: seq<seq<Byte>>, k: nat, off: nat, addr: seq<Byte>)
    returns (img: Image, ok: bool, r: Result, ghost images: seq<Snapshot>)
    requires Named(names) && |names| == |files| && AllFit(files) && |files| + 1 < TableLimit(MKFS_SUPER)
    requires k < |files| && off < UINT_LIMIT
    ensures ok && LogZero(img.blocks) && Complete(MKFS_SUPER, img.blocks, img.inodes, img.owner, names, files)
    ensures images != [] && images[0] == Snapshot(img.blocks, img.inodes, img.owner, {})
    ensures Undisturbed(MKFS_SUPER, images, k + 2, off, addr)
    ensures r.Written? && addr != [] ==> off + |addr| <= MAXFILE * BSIZE && r.n == |addr|
    ensures r == Failed ==> off > |files[k]| || off + |addr| > MAXFILE * BSIZE
  {
    hide Complete, Consistent, Synced, Undisturbed, IsFree, AllFit, Progress, NoHoles;
    img, ok := Build(super, names, files);
    ghost var b, n, o := img.blocks, img.inodes, img.owner;
    FileFacts(b, n, o, names, files, k);
    var fs := new FileSystem(MKFS_SUPER, img.blocks, |files| + 1, img.inodes, img.owner);
    var f := new OpenFile(k + 2, off);
    r, images := f.Write(fs, addr);
  }
}
