/** Writing through an open file: filewrite cuts the data into pieces small enough for one transaction each. */
module FileLayer {
  import opened Blocks
  import opened Dinode
  import opened FsModel
  import opened Fs
  import opened Params

  /** max in filewrite: i-node, indirect block and two blocks of slop, two log blocks per data block. */
  const CHUNK: nat := (MAXOPBLOCKS - 1 - 1 - 2) / 2 * 512

  /** Whatever the offset, one piece logs at most MAXOPBLOCKS blocks: if it is not aligned it touches a fourth
      block, but then its first block exists already. */
  lemma ChunkFits(off: nat, n: nat)
    requires n <= CHUNK
    ensures WriteCost(off, n) <= MAXOPBLOCKS
  {
    var o := off % BSIZE;
    assert o == 0 ==> (n + BSIZE - 1) / BSIZE <= 3;
    assert (o + n + BSIZE - 1) / BSIZE <= 4;
  }

  /** No larger piece would do: a transaction that appends it to a file of whole blocks may not fit. */
  lemma ChunkTight(n: nat)
    requires n > CHUNK
    ensures WriteCost(0, n) > MAXOPBLOCKS
  {
    assert (n + BSIZE - 1) / BSIZE >= 4;
  }

  /** Two splices in a row are one. */
  lemma SpliceTwice(c: seq<Byte>, off: nat, a: seq<Byte>, b: seq<Byte>)
    requires off <= |c|
    ensures Spliced(Spliced(c, off, a), off + |a|, b) == Spliced(c, off, a + b)
  {
    var x, y := Spliced(Spliced(c, off, a), off + |a|, b), Spliced(c, off, a + b);
    assert |x| == |y|;
    forall k | 0 <= k < |x|
      ensures x[k] == y[k]
    {
    }
  }

  lemma SpliceOn(c: seq<Byte>, off: nat, addr: seq<Byte>, i: nat, m: nat)
    requires off <= |c| && i + m <= |addr|
    ensures Spliced(Spliced(c, off, addr[..i]), off + i, addr[i..i + m]) == Spliced(c, off, addr[..i + m])
  {
    hide Spliced;
    SpliceTwice(c, off, addr[..i], addr[i..i + m]);
    assert addr[..i] + addr[i..i + m] == addr[..i + m];
  }

  lemma SpliceNothing(c: seq<Byte>, off: nat)
    requires off <= |c|
    ensures Spliced(c, off, []) == c
  {
  }

  datatype Result = Written(n: nat) | Failed | ToDevice | Panicked

  // ---------- Histories of transactions ----------

  /** The file system between two transactions, and the blocks that the one before has logged. */
  datatype Snapshot = Snapshot(blocks: seq<Block>, inodes: Inodes, owner: Owners, logged: set<nat>)

  /** The image is a valid file system. */
  ghost predicate Mounted(sb: Super, blocks: seq<Block>, image: Snapshot)
  {
    Consistent(sb, blocks, image.inodes, image.owner)
  }

  ghost predicate HasFile(im: Snapshot, ip: nat)
  {
    ip in im.inodes && Sized(im.inodes[ip])
  }

  /** A transaction within the log's limit that leaves a valid file system. A file without holes keeps none, and the
      inode table stays exact. */
  ghost predicate Transacted(sb: Super, im0: Snapshot, im1: Snapshot, ip: nat)
  {
    && HasFile(im0, ip) && HasFile(im1, ip) && Mounted(sb, im1.blocks, im1)
    && Changed(sb, im0.blocks, {}, im1.blocks, im1.logged)
    && (NoHoles(im0.blocks, im0.inodes[ip]) ==>
          && NoHoles(im1.blocks, im1.inodes[ip]) && |im1.logged| <= MAXOPBLOCKS
          && (Synced(sb, im0.blocks, im0.inodes) ==> Synced(sb, im1.blocks, im1.inodes)))
  }

  /** One transaction of filewrite: the data is spliced in at `at`, and no other file changes. */
  ghost predicate Piece(sb: Super, im0: Snapshot, im1: Snapshot, ip: nat, at: nat, data: seq<Byte>)
  {
    && Transacted(sb, im0, im1, ip) && im1.inodes[ip].kind == im0.inodes[ip].kind != T_DEV
    && at <= im0.inodes[ip].size && at + |data| <= MAXFILE * BSIZE
    && Contents(im1.blocks, im1.inodes[ip]) == Spliced(Contents(im0.blocks, im0.inodes[ip]), at, data)
    && OthersSame(im0.blocks, im0.inodes, im1.blocks, im1.inodes, ip)
  }

  /** A transaction of any other operation that leaves this file alone. */
  ghost predicate Apart(sb: Super, im0: Snapshot, im1: Snapshot, ip: nat)
  {
    && Transacted(sb, im0, im1, ip) && im1.inodes[ip] == im0.inodes[ip]
    && Contents(im1.blocks, im1.inodes[ip]) == Contents(im0.blocks, im0.inodes[ip])
  }

  datatype Turn = Mine | Other

  /** The transactions of this filewrite among the first k. */
  function OwnTurns(turns: seq<Turn>, k: nat): (n: nat)
    requires k <= |turns|
  {
    if k == 0 then 0 else OwnTurns(turns, k - 1) + if turns[k - 1] == Mine then 1 else 0
  }

  predicate AllMine(turns: seq<Turn>, k: nat)
    requires k <= |turns|
  {
    forall j :: 0 <= j < k ==> turns[j] == Mine
  }

  /** The bytes of n that k pieces hold. */
  function Pieces(k: nat, n: nat): (i: nat)
    ensures i <= n
  {
    if k * CHUNK < n then k * CHUNK else n
  }

  lemma NextPiece(k: nat, n: nat)
    requires Pieces(k, n) < n
    ensures Pieces(k + 1, n) == Pieces(k, n) + if n - Pieces(k, n) > CHUNK then CHUNK else n - Pieces(k, n)
  {
  }

  /** A transaction is the piece after n others, or another operation's. */
  ghost predicate StepOk(sb: Super, im0: Snapshot, im1: Snapshot, turn: Turn, n: nat, ip: nat, off: nat,
                         addr: seq<Byte>)
  {
    var i, j := Pieces(n, |addr|), Pieces(n + 1, |addr|);
    if turn == Mine then i < j && Piece(sb, im0, im1, ip, off + i, addr[i..j]) else Apart(sb, im0, im1, ip)
  }

  /** A history in which the pieces of one filewrite are interleaved with transactions that leave its file alone. */
  ghost predicate History(sb: Super, images: seq<Snapshot>, turns: seq<Turn>, ip: nat, off: nat, addr: seq<Byte>)
  {
    && |images| == |turns| + 1 && HasFile(images[0], ip) && Mounted(sb, images[0].blocks, images[0])
    && forall k :: 0 <= k < |turns| ==> StepAt(sb, images, turns, ip, off, addr, k)
  }

  ghost predicate StepAt(sb: Super, images: seq<Snapshot>, turns: seq<Turn>, ip: nat, off: nat, addr: seq<Byte>, k: nat)
    requires k < |turns| && k + 1 < |images|
  {
    StepOk(sb, images[k], images[k + 1], turns[k], OwnTurns(turns, k), ip, off, addr)
  }

  /** The file has got the first n bytes of the data at off; if nobody else has written, every other file is as it
      was. */
  ghost predicate Progress(sb: Super, start: Snapshot, im: Snapshot, ip: nat, off: nat, addr: seq<Byte>, n: nat,
                           alone: bool)
  {
    && HasFile(start, ip) && HasFile(im, ip) && Mounted(sb, im.blocks, im)
    && n <= |addr| && im.inodes[ip].kind == start.inodes[ip].kind
    && (n == 0 ==> im.inodes[ip] == start.inodes[ip])
    && (n > 0 ==> off <= start.inodes[ip].size && off + n <= MAXFILE * BSIZE && start.inodes[ip].kind != T_DEV)
    && (off <= start.inodes[ip].size ==>
          Contents(im.blocks, im.inodes[ip]) == Spliced(Contents(start.blocks, start.inodes[ip]), off, addr[..n]))
    && (NoHoles(start.blocks, start.inodes[ip]) ==>
          && NoHoles(im.blocks, im.inodes[ip])
          && (Synced(sb, start.blocks, start.inodes) ==> Synced(sb, im.blocks, im.inodes)))
    && (alone ==> OthersSame(start.blocks, start.inodes, im.blocks, im.inodes, ip))
  }

  lemma ProgressStart(sb: Super, im: Snapshot, ip: nat, off: nat, addr: seq<Byte>)
    requires HasFile(im, ip) && Mounted(sb, im.blocks, im)
    ensures Progress(sb, im, im, ip, off, addr, 0, true)
  {
    SizeFact(sb, im.blocks, im.inodes, im.owner);
    OthersStart(im.blocks, im.inodes, ip);
    hide Contents, Spliced, OthersSame, NoHoles, Mounted, Synced;
    if off <= im.inodes[ip].size {
      SpliceNothing(Contents(im.blocks, im.inodes[ip]), off);
      assert addr[..0] == [];
    }
  }

  lemma PieceSplices(start: Snapshot, im0: Snapshot, im1: Snapshot, ip: nat, off: nat, addr: seq<Byte>, i: nat, j: nat)
    requires HasFile(start, ip) && HasFile(im0, ip) && HasFile(im1, ip) && i < j <= |addr|
    requires off <= start.inodes[ip].size
    requires Contents(im0.blocks, im0.inodes[ip]) == Spliced(Contents(start.blocks, start.inodes[ip]), off, addr[..i])
    requires off + i <= im0.inodes[ip].size
    requires Contents(im1.blocks, im1.inodes[ip]) == Spliced(Contents(im0.blocks, im0.inodes[ip]), off + i, addr[i..j])
    ensures Contents(im1.blocks, im1.inodes[ip]) == Spliced(Contents(start.blocks, start.inodes[ip]), off, addr[..j])
  {
    hide Contents, Spliced;
    SpliceOn(Contents(start.blocks, start.inodes[ip]), off, addr, i, j - i);
  }

  lemma ProgressPiece(sb: Super, start: Snapshot, im0: Snapshot, im1: Snapshot, ip: nat, off: nat, addr: seq<Byte>,
                      i: nat, j: nat, alone: bool)
    requires Progress(sb, start, im0, ip, off, addr, i, alone) && i < j <= |addr|
    requires Piece(sb, im0, im1, ip, off + i, addr[i..j])
    ensures Progress(sb, start, im1, ip, off, addr, j, alone)
  {
    hide Contents, Spliced, OthersSame, NoHoles, Mounted, Synced, Changed, Sized;
    if alone {
      OthersTrans(start.blocks, start.inodes, im0.blocks, im0.inodes, im1.blocks, im1.inodes, ip);
    }
    PieceSplices(start, im0, im1, ip, off, addr, i, j);
  }

  lemma ProgressApart(sb: Super, start: Snapshot, im0: Snapshot, im1: Snapshot, ip: nat, off: nat, addr: seq<Byte>,
                      i: nat)
    requires Progress(sb, start, im0, ip, off, addr, i, false) && Apart(sb, im0, im1, ip)
    ensures Progress(sb, start, im1, ip, off, addr, i, false)
  {
    hide Contents, Spliced, OthersSame, NoHoles, Mounted, Synced, Changed;
  }

  /** Somebody else may have written. */
  lemma ProgressAny(sb: Super, start: Snapshot, im: Snapshot, ip: nat, off: nat, addr: seq<Byte>, i: nat, alone: bool)
    requires Progress(sb, start, im, ip, off, addr, i, alone)
    ensures Progress(sb, start, im, ip, off, addr, i, false)
  {
    hide Contents, Spliced, OthersSame, NoHoles, Mounted, Synced;
  }

  /** After any number of transactions the file holds exactly the pieces written so far, whoever else has written. */
  lemma {:induction false} HistoryAt(sb: Super, images: seq<Snapshot>, turns: seq<Turn>, ip: nat, off: nat,
                                     addr: seq<Byte>, k: nat)
    requires History(sb, images, turns, ip, off, addr) && k <= |turns|
    ensures Progress(sb, images[0], images[k], ip, off, addr, Pieces(OwnTurns(turns, k), |addr|), AllMine(turns, k))
  {
    hide Progress, StepOk, Mounted, HasFile, Pieces;
    if k == 0 {
      StartOf(sb, images[0], ip, off, addr);
    } else {
      assert StepAt(sb, images, turns, ip, off, addr, k - 1);
      HistoryAt(sb, images, turns, ip, off, addr, k - 1);
      hide History;
      assert AllMine(turns, k) <==> AllMine(turns, k - 1) && turns[k - 1] == Mine;
      ProgressStep(sb, images[0], images[k - 1], images[k], turns[k - 1], OwnTurns(turns, k - 1), ip, off, addr,
                   AllMine(turns, k - 1));
    }
  }

  lemma StartOf(sb: Super, im: Snapshot, ip: nat, off: nat, addr: seq<Byte>)
    requires HasFile(im, ip) && Mounted(sb, im.blocks, im)
    ensures Progress(sb, im, im, ip, off, addr, Pieces(0, |addr|), true)
  {
    hide Progress, HasFile, Mounted;
    ProgressStart(sb, im, ip, off, addr);
  }

  lemma ProgressStep(sb: Super, start: Snapshot, im0: Snapshot, im1: Snapshot, turn: Turn, n: nat, ip: nat, off: nat,
                     addr: seq<Byte>, alone: bool)
    requires Progress(sb, start, im0, ip, off, addr, Pieces(n, |addr|), alone)
    requires StepOk(sb, im0, im1, turn, n, ip, off, addr)
    ensures Progress(sb, start, im1, ip, off, addr, Pieces(if turn == Mine then n + 1 else n, |addr|),
                     alone && turn == Mine)
  {
    hide Progress, Piece, Apart, Pieces;
    var i, j := Pieces(n, |addr|), Pieces(n + 1, |addr|);
    if turn == Mine {
      ProgressPiece(sb, start, im0, im1, ip, off, addr, i, j, alone);
    } else {
      ProgressAny(sb, start, im0, ip, off, addr, i, alone);
      ProgressApart(sb, start, im0, im1, ip, off, addr, i);
    }
  }

  /** The turns of a filewrite that nobody interrupts. */
  function Alone(n: nat): (turns: seq<Turn>)
    ensures |turns| == n && AllMine(turns, n)
  {
    seq(n, k => Mine)
  }

  lemma {:induction false} CountAlone(n: nat, k: nat)
    requires k <= n
    ensures OwnTurns(Alone(n), k) == k
  {
    if k > 0 {
      CountAlone(n, k - 1);
    }
  }

  /** A filewrite that nobody interrupts. */
  ghost predicate Undisturbed(sb: Super, images: seq<Snapshot>, ip: nat, off: nat, addr: seq<Byte>)
  {
    images != [] && History(sb, images, Alone(|images| - 1), ip, off, addr)
  }

  /** One more piece. */
  lemma HistoryMore(sb: Super, images: seq<Snapshot>, ip: nat, off: nat, addr: seq<Byte>, im: Snapshot)
    requires Undisturbed(sb, images, ip, off, addr)
    requires var n := |images| - 1; var i, j := Pieces(n, |addr|), Pieces(n + 1, |addr|);
      i < j && Piece(sb, images[n], im, ip, off + i, addr[i..j])
    ensures Undisturbed(sb, images + [im], ip, off, addr)
  {
    var n, more, turns := |images| - 1, images + [im], Alone(|images|);
    hide StepOk, StepAt, Pieces, Piece, Mounted, HasFile, OwnTurns, AllMine, Alone;
    PieceStep(sb, images[n], im, n, ip, off, addr);
    forall k | 0 <= k < |turns|
      ensures StepAt(sb, more, turns, ip, off, addr, k)
    {
      assert k < n ==> StepAt(sb, images, Alone(n), ip, off, addr, k);
      StepMoved(sb, images, ip, off, addr, im, k);
    }
  }

  lemma StepMoved(sb: Super, images: seq<Snapshot>, ip: nat, off: nat, addr: seq<Byte>, im: Snapshot, k: nat)
    requires k < |images|
    requires k < |images| - 1 ==> StepAt(sb, images, Alone(|images| - 1), ip, off, addr, k)
    requires StepOk(sb, images[|images| - 1], im, Mine, |images| - 1, ip, off, addr)
    ensures StepAt(sb, images + [im], Alone(|images|), ip, off, addr, k)
  {
    hide StepOk, OwnTurns, AllMine;
    CountAlone(|images|, k);
    if k < |images| - 1 {
      CountAlone(|images| - 1, k);
    }
  }

  lemma PieceStep(sb: Super, im0: Snapshot, im1: Snapshot, n: nat, ip: nat, off: nat, addr: seq<Byte>)
    requires var i, j := Pieces(n, |addr|), Pieces(n + 1, |addr|); i < j && Piece(sb, im0, im1, ip, off + i, addr[i..j])
    ensures StepOk(sb, im0, im1, Mine, n, ip, off, addr)
  {
    hide Piece, Pieces;
  }

  /** A filewrite that nobody has interrupted has written i bytes and left the file system as it is now. */
  ghost predicate SoFar(sb: Super, images: seq<Snapshot>, now: Snapshot, ip: nat, off: nat, addr: seq<Byte>, i: nat)
  {
    && Undisturbed(sb, images, ip, off, addr) && i == Pieces(|images| - 1, |addr|)
    && var last := images[|images| - 1];
       last.blocks == now.blocks && last.inodes == now.inodes && last.owner == now.owner
  }

  class OpenFile {
    const ip: nat
    var off: nat

    constructor (ip: nat, off: nat)
      ensures this.ip == ip && this.off == off
    {
      this.ip, this.off := ip, off;
    }

    /** One transaction of filewrite's loop, whatever the other operations have done since the last one. */
    method WritePiece(fs: FileSystem, addr: seq<Byte>, i: nat) returns (w: Outcome)
      requires fs.Valid() && ip in fs.inodes && off < UINT_LIMIT && i < |addr|
      modifies this`off, fs
      ensures w == Device <==> old(fs.inodes)[ip].kind == T_DEV
      ensures w == Panic ==> forall b: nat :: !IsFree(fs.sb, fs.blocks, b)
      ensures w == Refused <==>
        && old(fs.inodes)[ip].kind != T_DEV
        && (old(off) > old(fs.inodes)[ip].size || old(off) + Min(|addr| - i, CHUNK) > MAXFILE * BSIZE)
      ensures w == Refused ==>
        && fs.Valid() && off == old(off)
        && fs.blocks == old(fs.blocks) && fs.inodes == old(fs.inodes) && fs.owner == old(fs.owner)
      ensures w.Count? ==>
        && fs.Valid() && w.n == Min(|addr| - i, CHUNK) && off == old(off) + w.n && off < UINT_LIMIT
        && Piece(fs.sb, Snapshot(old(fs.blocks), old(fs.inodes), old(fs.owner), {}),
                 Snapshot(fs.blocks, fs.inodes, fs.owner, fs.logged), ip, old(off), addr[i..i + w.n])
    {
      hide Owns, Marked, Contents, Spliced, OthersSame, NoHoles, IsFree, WriteCost, Synced, Changed;
      var n := |addr| - i;
      if n > CHUNK {
        n := CHUNK;
      }
      fs.logged := {};                                 // begin_op
      w := fs.Writei(ip, addr[i..i + n], off);
      if w.Count? {
        ChunkFits(off, n);
        off := off + w.n;
      }
    }

    /** The same with the history so far: a transaction that writes adds its image. */
    method NextImage(fs: FileSystem, addr: seq<Byte>, i: nat, ghost images: seq<Snapshot>, ghost off0: nat)
      returns (w: Outcome, ghost images': seq<Snapshot>)
      requires fs.Valid() && off == off0 + i && off < UINT_LIMIT && i < |addr|
      requires SoFar(fs.sb, images, Snapshot(fs.blocks, fs.inodes, fs.owner, {}), ip, off0, addr, i)
      modifies this`off, fs
      ensures images != [] && ip in images[0].inodes && (w == Device <==> images[0].inodes[ip].kind == T_DEV)
      ensures w == Panic ==> forall b: nat :: !IsFree(fs.sb, fs.blocks, b)
      ensures !w.Count? ==> images' == images
      ensures images' != [] && Undisturbed(fs.sb, images', ip, off0, addr)
      ensures w == Refused ==>
        && fs.Valid() && off == old(off)
        && fs.blocks == old(fs.blocks) && fs.inodes == old(fs.inodes) && fs.owner == old(fs.owner)
        && (off0 > images[0].inodes[ip].size || off0 + |addr| > MAXFILE * BSIZE)
      ensures w.Count? ==>
        && fs.Valid() && 0 < w.n && i + w.n <= |addr| && off == old(off) + w.n && off < UINT_LIMIT
        && images'[0] == images[0]
        && SoFar(fs.sb, images', Snapshot(fs.blocks, fs.inodes, fs.owner, {}), ip, off0, addr, i + w.n)
    {
      hide Consistent, Progress, IsFree, Pieces, Alone, Piece, History;
      HistoryLast(fs.sb, images, ip, off0, addr);
      NextPiece(|images| - 1, |addr|);
      w := WritePiece(fs, addr, i);
      images' := images;
      if w.Count? {
        ghost var im := Snapshot(fs.blocks, fs.inodes, fs.owner, fs.logged);
        PieceSame(fs.sb, images[|images| - 1], im, ip, off0 + i, addr[i..i + w.n]);
        HistoryMore(fs.sb, images, ip, off0, addr, im);
        images' := images + [im];
      }
    }

    /** The loop of filewrite; it ends with the first outcome that is not a count. */
    method WriteLoop(fs: FileSystem, addr: seq<Byte>) returns (w: Outcome, i: nat, ghost images: seq<Snapshot>)
      requires fs.Valid() && ip in fs.inodes && off < UINT_LIMIT
      modifies this`off, fs
      ensures w == Device <==> old(fs.inodes)[ip].kind == T_DEV && addr != []
      ensures w == Panic ==> forall b: nat :: !IsFree(fs.sb, fs.blocks, b)
      ensures w == Refused ==>
        addr != [] && (old(off) > old(fs.inodes)[ip].size || old(off) + |addr| > MAXFILE * BSIZE)
      ensures images != [] && images[0] == Snapshot(old(fs.blocks), old(fs.inodes), old(fs.owner), {})
      ensures Undisturbed(fs.sb, images, ip, old(off), addr)
      ensures w.Count? ==> i == |addr|
      ensures w.Count? || w == Refused ==>
        && fs.Valid() && off == old(off) + i
        && SoFar(fs.sb, images, Snapshot(fs.blocks, fs.inodes, fs.owner, {}), ip, old(off), addr, i)
    {
      hide Consistent, IsFree, Undisturbed, SoFar;
      images := [Snapshot(fs.blocks, fs.inodes, fs.owner, {})];
      HistoryStart(fs.sb, images[0], ip, off, addr);
      ghost var start, off0 := images[0], off;
      w, i := Count(0), 0;
      while i < |addr|
        invariant w.Count? && i <= |addr| && off == off0 + i && off < UINT_LIMIT && fs.Valid()
        invariant i > 0 ==> start.inodes[ip].kind != T_DEV
        invariant images != [] && images[0] == start && Undisturbed(fs.sb, images, ip, off0, addr)
        invariant SoFar(fs.sb, images, Snapshot(fs.blocks, fs.inodes, fs.owner, {}), ip, off0, addr, i)
        decreases |addr| - i
      {
        w, images := NextImage(fs, addr, i, images, off0);
        if !w.Count? {
          return;
        }
        i := i + w.n;
      }
    }

    /** filewrite, when nobody else writes in between: all of the data ends up in the file at the file offset, which
        moves past it. It fails exactly when the offset is past the end or the file would get too large; the file then
        holds what the offset has moved past. Every transaction along the way fits in the log and leaves a valid file
        system that holds a whole number of pieces. */
    method Write(fs: FileSystem, addr: seq<Byte>) returns (r: Result, ghost images: seq<Snapshot>)
      requires fs.Valid() && ip in fs.inodes && off < UINT_LIMIT
      modifies this`off, fs
      ensures r == ToDevice <==> old(fs.inodes)[ip].kind == T_DEV && addr != []
      ensures r == Panicked ==> forall b: nat :: !IsFree(fs.sb, fs.blocks, b)
      ensures r.Written? ==> r.n == |addr| && off == old(off) + |addr|
      ensures r.Written? && addr != [] ==> old(off) <= old(fs.inodes)[ip].size && old(off) + |addr| <= MAXFILE * BSIZE
      ensures r == Failed ==>
        addr != [] && (old(off) > old(fs.inodes)[ip].size || old(off) + |addr| > MAXFILE * BSIZE)
      ensures images != [] && images[0] == Snapshot(old(fs.blocks), old(fs.inodes), old(fs.owner), {})
      ensures Undisturbed(fs.sb, images, ip, old(off), addr)
      ensures r.Written? || r == Failed ==>
        && fs.Valid() && old(off) <= off
        && Progress(fs.sb, images[0], Snapshot(fs.blocks, fs.inodes, fs.owner, {}), ip, old(off), addr, off - old(off),
                    true)
    {
      hide Consistent, Progress, IsFree, Undisturbed, SoFar;
      var w, i;
      ghost var off0 := off;
      w, i, images := WriteLoop(fs, addr);
      if w.Count? || w == Refused {
        SoFarMeans(fs.sb, images, Snapshot(fs.blocks, fs.inodes, fs.owner, {}), ip, off0, addr, i);
      }
      r := Reported(w, i);
    }
  }

  function Reported(w: Outcome, i: nat): (r: Result)
  {
    match w
    case Count(_) => Written(i)
    case Device => ToDevice
    case Panic => Panicked
    case Refused => Failed
  }

  lemma HistoryStart(sb: Super, im: Snapshot, ip: nat, off: nat, addr: seq<Byte>)
    requires Consistent(sb, im.blocks, im.inodes, im.owner) && ip in im.inodes
    ensures SoFar(sb, [im], im, ip, off, addr, 0) && Undisturbed(sb, [im], ip, off, addr)
  {
    assert Storable(sb, ip, im.inodes[ip]);
    hide Owns, Marked;
  }

  /** What the blocks logged before were does not matter. */
  lemma PieceSame(sb: Super, im0: Snapshot, im1: Snapshot, ip: nat, at: nat, data: seq<Byte>)
    requires Piece(sb, Snapshot(im0.blocks, im0.inodes, im0.owner, {}), im1, ip, at, data)
    ensures Piece(sb, im0, im1, ip, at, data)
  {
    hide Mounted, Changed, Synced, NoHoles, Contents, Spliced, OthersSame;
  }

  lemma SoFarMeans(sb: Super, images: seq<Snapshot>, now: Snapshot, ip: nat, off: nat, addr: seq<Byte>, i: nat)
    requires SoFar(sb, images, now, ip, off, addr, i)
    ensures Undisturbed(sb, images, ip, off, addr)
    ensures Progress(sb, images[0], now, ip, off, addr, i, true) && ip in images[0].inodes
    ensures i > 0 ==> off <= images[0].inodes[ip].size && off + i <= MAXFILE * BSIZE
  {
    hide History, Pieces, Alone;
    HistoryLast(sb, images, ip, off, addr);
    hide Consistent, Synced, NoHoles, OthersSame, Contents, Spliced;
  }

  lemma HistoryLast(sb: Super, images: seq<Snapshot>, ip: nat, off: nat, addr: seq<Byte>)
    requires Undisturbed(sb, images, ip, off, addr)
    ensures var i, im, start := Pieces(|images| - 1, |addr|), images[|images| - 1], images[0];
      && Progress(sb, start, im, ip, off, addr, i, true) && ip in im.inodes && ip in start.inodes
      && im.inodes[ip].kind == start.inodes[ip].kind
      && (i == 0 ==> im.inodes[ip].size == start.inodes[ip].size)
      && (i > 0 ==> off <= start.inodes[ip].size && off + i <= MAXFILE * BSIZE)
      && (off <= start.inodes[ip].size ==> off + i <= im.inodes[ip].size)
  {
    var n := |images| - 1;
    HistoryAt(sb, images, Alone(n), ip, off, addr, n);
    CountAlone(n, n);
    hide History, Pieces, Alone, Mounted, Synced, NoHoles, OthersSame, Contents;
    var start, im := images[0], images[n];
    if off <= start.inodes[ip].size {
      assert |Contents(im.blocks, im.inodes[ip])| ==
             |Spliced(Contents(start.blocks, start.inodes[ip]), off, addr[..Pieces(n, |addr|)])|;
    }
  }
}
