/** A crash anywhere in filewrite: the file system on top of the log. */
module FileCrash {
  import opened Blocks
  import opened Bitmap
  import opened Dinode
  import opened FsModel
  import opened Fs
  import opened FileLayer
  import opened LogMachine
  import opened Options
  import opened Params
  import LC = LogCrash
  import LI = LogImages

  /** The images that the commits of a run find, in order: images[idx[0]], images[idx[1]], ... */
  function Picked(images: seq<Snapshot>, idx: seq<nat>): (r: seq<Disk>)
    requires Index(idx, |images|)
    ensures |r| == |idx| && forall j :: 0 <= j < |r| ==> r[j] == images[idx[j]].blocks
  {
    seq(|idx|, j requires 0 <= j < |idx| => images[idx[j]].blocks)
  }

  /** A nondecreasing choice among n images that starts with the first. */
  predicate Index(idx: seq<nat>, n: nat)
  {
    && idx != [] && idx[0] == 0 < n && (forall j :: 0 <= j < |idx| ==> idx[j] < n)
    && forall j, k :: 0 <= j < k < |idx| ==> idx[j] <= idx[k]
  }

  /** The log lies before the inode table, on a disk of the size of the file system. */
  predicate Laid(g: LogMachine.Geometry, sb: Super, d: Disk)
  {
    g.start + g.size <= sb.inodestart && |d| == sb.size
  }

  // ---------- Only the blocks behind the log matter ----------

  ghost predicate Agree(sb: Super, a: seq<Block>, b: seq<Block>)
  {
    |a| == |b| && forall x: nat :: sb.inodestart <= x < |a| ==> a[x] == b[x]
  }

  lemma AgreeSlots(sb: Super, a: seq<Block>, b: seq<Block>, inodes: Inodes, owner: Owners)
    requires Owns(sb, a, inodes, owner) && Agree(sb, a, b)
    ensures SameSlots(a, b, inodes)
  {
    forall i, s: nat | i in inodes && s < SLOTS
      ensures |inodes[i].addrs| == NDIRECT + 1 && Slot(b, inodes[i], s) == Slot(a, inodes[i], s)
    {
      if inodes[i].addrs[NDIRECT] != 0 {
        IndirectOwned(sb, a, inodes, owner, i);
      }
    }
  }

  lemma AgreeByte(sb: Super, a: seq<Block>, b: seq<Block>, inodes: Inodes, owner: Owners, i: nat, k: nat)
    requires Owns(sb, a, inodes, owner) && Agree(sb, a, b) && SameSlots(a, b, inodes) && i in inodes
    requires k < MAXFILE * BSIZE && |inodes[i].addrs| == NDIRECT + 1
    ensures ByteAt(b, inodes[i], k) == ByteAt(a, inodes[i], k)
  {
    var s := FileSlot(k / BSIZE);
    SizeFact(sb, a, inodes, owner);
    assert Slot(b, inodes[i], s) == Slot(a, inodes[i], s);
    if Slot(a, inodes[i], s) != 0 {
      SlotInRange(sb, a, inodes, owner, i, s);
    }
    hide Owns, Slot, SameSlots;
  }

  lemma AgreeBytes(sb: Super, a: seq<Block>, b: seq<Block>, inodes: Inodes, owner: Owners)
    requires Owns(sb, a, inodes, owner) && Agree(sb, a, b)
    ensures SameBytes(a, inodes, b, inodes)
  {
    AgreeSlots(sb, a, b, inodes, owner);
    SizeFact(sb, a, inodes, owner);
    hide Owns, Agree, SameSlots, ByteAt;
    forall i, k: nat | i in inodes && k < MAXFILE * BSIZE
      ensures ByteAt(b, inodes[i], k) == ByteAt(a, inodes[i], k)
    {
      AgreeByte(sb, a, b, inodes, owner, i, k);
    }
  }

  lemma AgreeMarked(sb: Super, a: seq<Block>, b: seq<Block>, owner: Owners)
    requires FsModel.Geometry(sb) && Marked(sb, a, owner, {}) && Agree(sb, a, b)
    ensures Marked(sb, b, owner, {})
  {
    forall c: nat | c < sb.size
      ensures InUse(b, sb.bmapstart, c) <==> InUse(a, sb.bmapstart, c)
    {
    }
  }

  /** Disks that agree behind the log hold the same file system. */
  lemma AgreeMounted(sb: Super, a: seq<Block>, b: seq<Block>, image: Snapshot)
    requires Mounted(sb, a, image) && Agree(sb, a, b)
    ensures Mounted(sb, b, image) && SameBytes(a, image.inodes, b, image.inodes)
    ensures Synced(sb, a, image.inodes) ==> Synced(sb, b, image.inodes)
  {
    AgreeBytes(sb, a, b, image.inodes, image.owner);
    AgreeSlots(sb, a, b, image.inodes, image.owner);
    SizeFact(sb, a, image.inodes, image.owner);
    OwnsSame(sb, a, b, image.inodes, image.owner);
    AgreeMarked(sb, a, b, image.owner);
    hide Owns, Marked, SameBytes, SameSlots, GetInode;
  }

  // ---------- Recovery ----------

  /** Disk d holds the file system of `image`: every block has one owner, the bitmap is exact, the inode table is up to
      date, and every file has the bytes it has in the image. Of the data, the file has got the first n bytes; if nobody
      else has written, every other file is as it was at the start. */
  ghost predicate Holds(sb: Super, d: Disk, start: Snapshot, image: Snapshot, ip: nat, off: nat, addr: seq<Byte>,
                        n: nat, alone: bool)
  {
    && Mounted(sb, d, image) && Synced(sb, d, image.inodes) && SameBytes(image.blocks, image.inodes, d, image.inodes)
    && HasFile(start, ip) && HasFile(image, ip) && n <= |addr|
    && (off <= start.inodes[ip].size ==>
          Contents(d, image.inodes[ip]) == Spliced(Contents(start.blocks, start.inodes[ip]), off, addr[..n]))
    && (n == 0 ==> image.inodes[ip] == start.inodes[ip])
    && (alone ==> OthersSame(start.blocks, start.inodes, d, image.inodes, ip))
  }

  lemma SameContents(a: seq<Block>, b: seq<Block>, inodes: Inodes, i: nat)
    requires SameBytes(a, inodes, b, inodes) && i in inodes && Sized(inodes[i])
    ensures Contents(b, inodes[i]) == Contents(a, inodes[i])
  {
    hide ByteAt;
  }

  lemma HoldsImage(sb: Super, start: Snapshot, im: Snapshot, ip: nat, off: nat, addr: seq<Byte>, n: nat, alone: bool,
                   d: Disk)
    requires Progress(sb, start, im, ip, off, addr, n, alone) && Agree(sb, im.blocks, d)
    requires NoHoles(start.blocks, start.inodes[ip]) && Synced(sb, start.blocks, start.inodes)
    ensures Holds(sb, d, start, im, ip, off, addr, n, alone)
  {
    hide NoHoles, Synced, Contents, Spliced, OthersSame, Agree, Mounted, SameBytes;
    AgreeMounted(sb, im.blocks, d, im);
    SameContents(im.blocks, d, im.inodes, ip);
    if alone {
      SameFileOthers(start.blocks, start.inodes, im.blocks, d, im.inodes, ip);
    }
  }

  lemma HomeAgree(g: LogMachine.Geometry, sb: Super, d: Disk, image: Disk)
    requires Laid(g, sb, d) && LC.HomeBlocksEqual(g, d, image)
    ensures Agree(sb, image, d)
  {
  }

  /** A crash anywhere in filewrite, with any other operations running that leave its file alone. A group commit may
      hold any number of their transactions and of filewrite's, or none, as long as it finds the file system between two
      transactions. Then recovery. Whenever it completes, the disk holds a valid file system in which the file has got a
      whole number of pieces of the data: those in the groups that had written their header. */
  lemma WriteSurvivesCrash(g: LogMachine.Geometry, sb: Super, s0: State, run: seq<Step>, reboot: seq<Step>,
                           images: seq<Snapshot>, turns: seq<Turn>, idx: seq<nat>, c: nat, ip: nat, off: nat,
                           addr: seq<Byte>)
    requires History(sb, images, turns, ip, off, addr) && Index(idx, |images|)
    requires NoHoles(images[0].blocks, images[0].inodes[ip]) && Synced(sb, images[0].blocks, images[0].inodes)
    requires Init(g, s0) && LC.RoomyLog(g, s0.disk) && Laid(g, sb, s0.disk)
    requires LI.Serves(g, s0, run, Picked(images, idx), c)
    requires LC.Reboot(reboot) && Exec(g, s0, run + [Crash] + reboot).Some?
    ensures var j := LI.Surviving(Exec(g, s0, run).value, c);
      var after := Exec(g, s0, run + [Crash] + reboot).value;
      j < |idx| && (after.phase == Idle ==>
        Holds(sb, after.disk, images[0], images[idx[j]], ip, off, addr, Pieces(OwnTurns(turns, idx[j]), |addr|),
              AllMine(turns, idx[j])))
  {
    LI.CrashLeavesImage(g, s0, run, reboot, Picked(images, idx), c);
    hide Exec, LI.Serves, Holds, NoHoles, Synced, LC.Reboot, Pieces, Progress;
    var j, after := LI.Surviving(Exec(g, s0, run).value, c), Exec(g, s0, run + [Crash] + reboot).value;
    if after.phase == Idle {
      SameSize(g, s0, run + [Crash] + reboot);
      HomeAgree(g, sb, after.disk, images[idx[j]].blocks);
      HistoryAt(sb, images, turns, ip, off, addr, idx[j]);
      hide History;
      HoldsImage(sb, images[0], images[idx[j]], ip, off, addr, Pieces(OwnTurns(turns, idx[j]), |addr|),
                 AllMine(turns, idx[j]), after.disk);
    }
  }

  lemma SameSize(g: LogMachine.Geometry, s0: State, steps: seq<Step>)
    requires Init(g, s0) && LC.RoomyLog(g, s0.disk) && Exec(g, s0, steps).Some?
    ensures |Exec(g, s0, steps).value.disk| == |s0.disk|
  {
    LC.CrashInvAlways(g, s0, steps);
    hide Exec, LC.DiskInv, LC.PhaseInv, LC.GoodList, Pinned;
  }

  // ---------- Such runs exist ----------

  /** Log_writes that make transaction k of the history: only to the blocks it has logged. */
  ghost predicate Makes(images: seq<Snapshot>, k: nat, ws: seq<Write>)
    requires k + 1 < |images|
  {
    && LC.Replay(images[k].blocks, ws) == images[k + 1].blocks
    && forall j :: 0 <= j < |ws| ==> ws[j].blockno in images[k + 1].logged
  }

  /** There always are some: each logged block once. */
  lemma WritesExist(sb: Super, b0: Disk, b1: Disk, logged: set<nat>) returns (ws: seq<Write>)
    requires |b0| == |b1| && forall b: nat :: b < |b0| && b1[b] != b0[b] ==> b in logged
    requires forall b :: b in logged ==> b < |b0|
    ensures LC.Replay(b0, ws) == b1 && forall j :: 0 <= j < |ws| ==> ws[j].blockno in logged
    decreases |logged|
  {
    if logged == {} {
      ws := [];
      assert b0 == b1;
    } else {
      var b :| b in logged;
      var less := WritesExist(sb, b0, b1[b := b0[b]], logged - {b});
      LC.ReplayAppend(b0, less, Write(0, b, b1[b]));
      ws := less + [Write(0, b, b1[b])];
      assert b1[b := b0[b]][b := b1[b]] == b1;
    }
  }

  lemma StepTurns(g: LogMachine.Geometry, sb: Super, d: Disk, images: seq<Snapshot>, turns: seq<Turn>, ip: nat,
                  off: nat, addr: seq<Byte>, k: nat, ws: seq<Write>)
    requires History(sb, images, turns, ip, off, addr) && k + 1 < |images| && Laid(g, sb, d) && Makes(images, k, ws)
    requires NoHoles(images[0].blocks, images[0].inodes[ip])
    ensures LI.Turns(g, d, images[k].blocks, images[k + 1].blocks, ws, images[k + 1].logged)
  {
    HistoryAt(sb, images, turns, ip, off, addr, k);
    assert StepAt(sb, images, turns, ip, off, addr, k);
    hide History, Synced, NoHoles, LC.Replay, Pieces, Contents, Spliced, OthersSame, Mounted;
    assert Transacted(sb, images[k], images[k + 1], ip);
    MountedSize(sb, images[k]);
  }

  lemma MountedSize(sb: Super, im: Snapshot)
    requires Mounted(sb, im.blocks, im)
    ensures |im.blocks| == sb.size
  {
    SizeFact(sb, im.blocks, im.inodes, im.owner);
  }

  /** Every history can be run, whatever the order and number of the log_writes of its transactions: from a quiet
      machine that holds the first image there is a run that commits them one by one, with no panic of the log and no
      lack of buffers. */
  lemma {:induction false} WriteRuns(g: LogMachine.Geometry, sb: Super, s0: State, images: seq<Snapshot>,
                                     turns: seq<Turn>, wss: seq<seq<Write>>, idx: seq<nat>, c: nat, ip: nat, off: nat,
                                     addr: seq<Byte>)
    returns (run: seq<Step>)
    requires History(sb, images, turns, ip, off, addr) && NoHoles(images[0].blocks, images[0].inodes[ip])
    requires |images| == |wss| + 1 && forall k :: 0 <= k < |wss| ==> Makes(images, k, wss[k])
    requires Index(idx, |images|) && |idx| == |images| && (forall k :: 0 <= k < |idx| ==> idx[k] == k) && c < |images|
    requires Init(g, s0) && LC.RoomyLog(g, s0.disk) && Laid(g, sb, s0.disk)
    requires LC.HomeBlocksEqual(g, s0.disk, images[0].blocks)
    ensures LI.Serves(g, s0, run, Picked(images, idx), c)
    ensures LI.Quiet(Exec(g, s0, run).value) && LI.Shows(g, Exec(g, s0, run).value, images[c].blocks)
  {
    hide Exec, LI.Serves, LI.Quiet, LI.Shows, LI.Turns, History, NoHoles, LC.HomeBlocksEqual, LC.RoomyLog, Init, Makes;
    if c == 0 {
      run := [];
      BootServes(g, s0, Picked(images, idx));
    } else {
      var before := WriteRuns(g, sb, s0, images, turns, wss, idx, c - 1, ip, off, addr);
      LI.ServesRuns(g, s0, before, Picked(images, idx), c - 1);
      SameSize(g, s0, before);
      StepTurns(g, sb, Exec(g, s0, before).value.disk, images, turns, ip, off, addr, c - 1, wss[c - 1]);
      run := LI.Transaction(g, s0, before, Picked(images, idx), c - 1, wss[c - 1], images[c].logged);
    }
  }

  lemma BootServes(g: LogMachine.Geometry, s0: State, disks: seq<Disk>)
    requires Init(g, s0) && disks != [] && LC.HomeBlocksEqual(g, s0.disk, disks[0])
    ensures LI.Serves(g, s0, [], disks, 0) && Exec(g, s0, []) == Some(s0)
    ensures LI.Quiet(s0) && LI.Shows(g, s0, disks[0])
  {
    hide HeaderCount;
    assert LI.Shows(g, s0, disks[0]);
  }
}
