/** Crash atomicity of the redo log, over every run of LogMachine. */
module LogCrash {
  import opened Blocks
  import opened LogMachine
  import opened Options
  import opened Params

  /** The disk content that results from performing log_writes directly, one after the other. */
  function Replay(d: Disk, ws: seq<Write>): (r: Disk)
    ensures |r| == |d|
  {
    if ws == [] then d else
      var w := ws[|ws| - 1];
      var r := Replay(d, ws[..|ws| - 1]);
      if w.blockno < |r| then r[w.blockno := w.data] else r
  }

  lemma ReplayAppend(d: Disk, ws: seq<Write>, w: Write)
    requires w.blockno < |d|
    ensures Replay(d, ws + [w]) == Replay(d, ws)[w.blockno := w.data]
  {
    assert (ws + [w])[..|ws|] == ws;
  }

  /** The log holds every group that can be committed: fewer than NBUF blocks, and the header. */
  predicate RoomyLog(g: Geometry, d: Disk)
  {
    g.size >= LOGSIZE && g.start + g.size <= |d| <= UINT_LIMIT
  }

  /** The block numbers in the header on disk. */
  function Header(g: Geometry, d: Disk): (lh: seq<nat>)
  {
    if g.start < |d| && HeaderCount(d[g.start]) <= LOGSIZE then HeaderBlocks(d[g.start]) else []
  }

  /** The i-th block of the log. */
  function LogBlock(g: Geometry, d: Disk, i: nat): (b: Block)
  {
    if g.start + 1 + i < |d| then d[g.start + 1 + i] else ZeroBlock()
  }

  /** Block numbers that a transaction may hold: distinct and outside the log. */
  predicate GoodList(g: Geometry, d: Disk, lh: seq<nat>)
  {
    |lh| <= LOGSIZE && Distinct(lh) && forall i :: 0 <= i < |lh| ==> Home(g, d, lh[i])
  }

  /** Disk `d`, seen through the committed transaction `lh`, has the home blocks of `goal`. */
  ghost predicate Represents(g: Geometry, d: Disk, lh: seq<nat>, goal: Disk)
  {
    && |goal| == |d| && |lh| < NBUF && GoodList(g, d, lh)
    && (forall b: nat :: Home(g, d, b) && b !in lh ==> d[b] == goal[b])
    && (forall i :: 0 <= i < |lh| ==> LogBlock(g, d, i) == goal[lh[i]])
  }

  ghost predicate HomeBlocksEqual(g: Geometry, d: Disk, goal: Disk)
  {
    |goal| == |d| && forall b: nat :: Home(g, d, b) ==> d[b] == goal[b]
  }

  /** The first k home blocks of the transaction have been installed. */
  ghost predicate Installed(g: Geometry, d: Disk, lh: seq<nat>, k: nat)
  {
    k <= |lh| && forall i :: 0 <= i < k ==> lh[i] < |d| && d[lh[i]] == LogBlock(g, d, i)
  }

  /** The first k logged blocks have been copied to the log. */
  ghost predicate Copied(g: Geometry, s: State, k: nat)
  {
    k <= |s.lh| && forall i :: 0 <= i < k ==> s.lh[i] in s.cache && LogBlock(g, s.disk, i) == s.cache[s.lh[i]]
  }

  /** Read through its header the disk is `goal`. */
  ghost predicate DiskInv(g: Geometry, d: Disk, goal: Disk)
  {
    RoomyLog(g, d) && HeaderCount(d[g.start]) <= LOGSIZE && Represents(g, d, Header(g, d), goal)
  }

  /** No group is committed, and bread sees the content of the open one. */
  ghost predicate Open(g: Geometry, s: State, open: Disk)
  {
    && Header(g, s.disk) == [] && |open| == |s.disk| && (s.lh == [] ==> s.current == [])
    && forall b: nat :: Home(g, s.disk, b) ==> View(s, b) == open[b]
  }

  /** What holds of memory and disk in each phase, `open` being the content including the open group. */
  ghost predicate PhaseInv(g: Geometry, s: State, open: Disk)
  {
    match s.phase
    case Copy(k) => Open(g, s, open) && Copied(g, s, k)
    case Install(k) => Header(g, s.disk) == s.lh && s.current == [] && Installed(g, s.disk, s.lh, k)
    case Done => Header(g, s.disk) == [] && s.current == []
    case Down => s.current == []
    case Recover(k) => Header(g, s.disk) == s.lh && s.current == [] && Installed(g, s.disk, s.lh, k)
    case _ => Open(g, s, open)
  }

  ghost predicate CrashInv(g: Geometry, d0: Disk, s: State)
  {
    && |d0| == |s.disk| && GoodList(g, s.disk, s.lh) && Pinned(s)
    && DiskInv(g, s.disk, Replay(d0, s.durable))
    && PhaseInv(g, s, Replay(d0, s.durable + s.current))
  }

  lemma LogFits(g: Geometry, s: State)
    requires Reserved(g, s)
    ensures |s.lh| <= LOGSIZE
  {
    SumsBound(s.ops);
  }

  lemma CrashInit(g: Geometry, s: State)
    requires Init(g, s) && RoomyLog(g, s.disk)
    ensures CrashInv(g, s.disk, s)
  {
    assert HeaderBlocks(s.disk[g.start]) == [];
    assert Header(g, s.disk) == [];
    assert Replay(s.disk, [] + []) == s.disk;
    hide HeaderBlocks, HeaderCount, Header;
  }

  // ---------- Steps in memory ----------

  lemma OpenLogWrite(g: Geometry, s: State, open: Disk, op: nat, b: nat, data: Block)
    requires Open(g, s, open) && op < |s.ops| && Home(g, s.disk, b)
    ensures Open(g, AfterLogWrite(s, op, b, data), open[b := data])
  {
    hide Header;
    var s' := AfterLogWrite(s, op, b, data);
    forall c: nat | Home(g, s'.disk, c)
      ensures View(s', c) == open[b := data][c]
    {
      assert View(s, c) == open[c];
    }
  }

  lemma GoodLogWrite(g: Geometry, d: Disk, lh: seq<nat>, b: nat)
    requires GoodList(g, d, lh) && Home(g, d, b) && b !in lh && |lh| < LOGSIZE
    ensures GoodList(g, d, lh + [b])
  {
  }

  lemma LogWriteKeeps(g: Geometry, d0: Disk, s: State, op: nat, b: nat, data: Block)
    requires CrashInv(g, d0, s) && Enabled(g, s, Step.LogWrite(op, b, data))
    requires |AfterLogWrite(s, op, b, data).lh| <= LOGSIZE
    ensures CrashInv(g, d0, AfterLogWrite(s, op, b, data))
  {
    hide DiskInv, Pinned, GoodList, Open, Replay;
    var s' := AfterLogWrite(s, op, b, data);
    var w := Write(op, b, data);
    OpenLogWrite(g, s, Replay(d0, s.durable + s.current), op, b, data);
    PinnedLogWrite(s, op, b, data);
    assert s.durable + s'.current == (s.durable + s.current) + [w];
    ReplayAppend(d0, s.durable + s.current, w);
    if b !in s.lh {
      GoodLogWrite(g, s.disk, s.lh, b);
    }
  }

  lemma OpenSame(g: Geometry, s: State, s': State, open: Disk)
    requires Open(g, s, open) && s'.disk == s.disk && s'.cache == s.cache && s'.lh == s.lh && s'.current == s.current
    ensures Open(g, s', open)
  {
    hide Header;
    forall b: nat | Home(g, s'.disk, b)
      ensures View(s', b) == open[b]
    {
      assert View(s, b) == open[b];
    }
  }

  /** A step that changes only the operations, or enters a panic. */
  lemma QuietKeeps(g: Geometry, d0: Disk, s: State, s': State)
    requires CrashInv(g, d0, s) && (s.phase == Idle || s.phase == Copy(0))
    requires s'.phase == s.phase || s'.phase in {Panicked, NoBuffers}
    requires s' == s.(ops := s'.ops, outstanding := s'.outstanding, phase := s'.phase)
    ensures CrashInv(g, d0, s')
  {
    OpenSame(g, s, s', Replay(d0, s.durable + s.current));
    hide DiskInv, GoodList, Open, Replay;
  }

  lemma BeginKeeps(g: Geometry, d0: Disk, s: State)
    requires CrashInv(g, d0, s) && Enabled(g, s, BeginOp)
    ensures CrashInv(g, d0, AfterBegin(s))
  {
    hide CrashInv;
    QuietKeeps(g, d0, s, AfterBegin(s));
  }

  lemma CheckKeeps(g: Geometry, d0: Disk, s: State, op: nat)
    requires CrashInv(g, d0, s) && Enabled(g, s, Check(op))
    ensures CrashInv(g, d0, AfterCheck(g, s, op))
  {
    hide CrashInv;
    QuietKeeps(g, d0, s, AfterCheck(g, s, op));
  }

  lemma EndKeeps(g: Geometry, d0: Disk, s: State, op: nat)
    requires CrashInv(g, d0, s) && Enabled(g, s, EndOp(op))
    ensures CrashInv(g, d0, AfterEnd(s, op))
  {
    var s' := AfterEnd(s, op);
    PinnedEnd(s, op);
    OpenSame(g, s, s', Replay(d0, s.durable + s.current));
    assert s.lh == [] ==> Header(g, s'.disk) == [] && s'.current == [];
    hide DiskInv, GoodList, Replay, Pinned, Open, Header;
  }

  lemma CrashKeeps(g: Geometry, d0: Disk, s: State)
    requires CrashInv(g, d0, s)
    ensures CrashInv(g, d0, AfterCrash(s))
  {
    hide DiskInv, Replay, PhaseInv;
    DownPhase(g, AfterCrash(s), Replay(d0, s.durable + []));
  }

  lemma DownPhase(g: Geometry, s: State, open: Disk)
    requires s.phase == Down && s.current == []
    ensures PhaseInv(g, s, open)
  {
  }

  lemma ReadHeadKeeps(g: Geometry, d0: Disk, s: State)
    requires CrashInv(g, d0, s) && Enabled(g, s, ReadHead)
    ensures CrashInv(g, d0, TakeStep(g, s, ReadHead))
  {
    var s' := TakeStep(g, s, ReadHead);
    assert Header(g, s.disk) == s'.lh;
    hide Replay, Header, HeaderBlocks;
    assert Represents(g, s.disk, s'.lh, Replay(d0, s.durable));
  }

  lemma FinishKeeps(g: Geometry, d0: Disk, s: State)
    requires CrashInv(g, d0, s) && s.phase == Done
    ensures CrashInv(g, d0, s.(phase := Idle))
  {
    assert s.durable + s.current == s.durable;
    hide Replay, Header;
  }

  // ---------- Block writes ----------

  lemma CopyFacts(g: Geometry, d0: Disk, s: State)
    requires CrashInv(g, d0, s) && s.phase.Copy?
    ensures RoomyLog(g, s.disk) && Header(g, s.disk) == [] && forall b :: b in s.cache <==> b in s.lh
    ensures Open(g, s, Replay(d0, s.durable + s.current)) && Copied(g, s, s.phase.k)
  {
    hide Replay, HeaderCount, Represents;
  }

  lemma SameLength(g: Geometry, d: Disk, d': Disk, lh: seq<nat>)
    requires GoodList(g, d, lh) && |d'| == |d|
    ensures GoodList(g, d', lh)
  {
  }

  /** Writing a block of the log behind its header leaves the header and the home blocks. */
  lemma CopyDisk(g: Geometry, d: Disk, goal: Disk, k: nat, data: Block)
    requires DiskInv(g, d, goal) && Header(g, d) == [] && k + 1 < g.size
    ensures Header(g, d[g.start + 1 + k := data]) == [] && DiskInv(g, d[g.start + 1 + k := data], goal)
  {
    var d' := d[g.start + 1 + k := data];
    assert d'[g.start] == d[g.start];
    assert Header(g, d') == Header(g, d);
    hide Header, HeaderCount, HeaderBlocks;
  }

  lemma CopyOne(g: Geometry, s: State, k: nat, open: Disk)
    requires RoomyLog(g, s.disk) && GoodList(g, s.disk, s.lh) && Open(g, s, open) && Copied(g, s, k)
    requires k < |s.lh| < NBUF && forall b :: b in s.cache <==> b in s.lh
    requires Header(g, AfterCopy(g, s, k).disk) == []
    ensures Open(g, AfterCopy(g, s, k), open) && Copied(g, AfterCopy(g, s, k), k + 1)
  {
    hide Header, Distinct;
    var s' := AfterCopy(g, s, k);
    forall b: nat | Home(g, s'.disk, b)
      ensures View(s', b) == open[b]
    {
      assert View(s, b) == open[b];
    }
    forall i | 0 <= i < k + 1
      ensures s.lh[i] in s.cache && LogBlock(g, s'.disk, i) == s.cache[s.lh[i]]
    {
      assert s.lh[i] in s.lh;
    }
  }

  lemma CopyKeeps(g: Geometry, d0: Disk, s: State, k: nat)
    requires CrashInv(g, d0, s) && s.phase == Copy(k) && k < |s.lh| < NBUF
    ensures CrashInv(g, d0, AfterCopy(g, s, k))
  {
    hide Replay, Header, HeaderCount, DiskInv, Open, Copied, Distinct;
    CopyFacts(g, d0, s);
    var s' := AfterCopy(g, s, k);
    CopyDisk(g, s.disk, Replay(d0, s.durable), k, View(s, s.lh[k]));
    CopyOne(g, s, k, Replay(d0, s.durable + s.current));
    SameLength(g, s.disk, s'.disk, s.lh);
    hide GoodList, View;
  }

  /** Copying log block k home, once or again, keeps what the disk represents. */
  lemma InstallOne(g: Geometry, d: Disk, lh: seq<nat>, k: nat, goal: Disk)
    requires RoomyLog(g, d) && Represents(g, d, lh, goal) && Installed(g, d, lh, k) && k < |lh|
    ensures var d' := d[lh[k] := LogBlock(g, d, k)];
      && Represents(g, d', lh, goal) && Installed(g, d', lh, k + 1) && d'[g.start] == d[g.start]
  {
    var d' := d[lh[k] := LogBlock(g, d, k)];
    assert forall i: nat :: i < |lh| ==> LogBlock(g, d', i) == LogBlock(g, d, i);
  }

  /** Writing the header makes the copied blocks the content the disk represents. */
  lemma CommitOne(g: Geometry, s: State, open: Disk, hb: Block)
    requires RoomyLog(g, s.disk) && GoodList(g, s.disk, s.lh) && |s.lh| < NBUF
    requires Open(g, s, open) && Copied(g, s, |s.lh|) && forall b :: b in s.cache <==> b in s.lh
    ensures Represents(g, s.disk[g.start := hb], s.lh, open)
  {
    hide Header;
    var d' := s.disk[g.start := hb];
    forall i | 0 <= i < |s.lh|
      ensures LogBlock(g, d', i) == open[s.lh[i]]
    {
      assert LogBlock(g, d', i) == LogBlock(g, s.disk, i) == View(s, s.lh[i]);
    }
    forall b: nat | Home(g, d', b) && b !in s.lh
      ensures d'[b] == open[b]
    {
      assert d'[b] == View(s, b);
    }
  }

  lemma HeaderIs(g: Geometry, d: Disk, lh: seq<nat>)
    requires g.start < |d| && Fits(lh)
    ensures var d' := d[g.start := PutHeader(d[g.start], lh)];
      Header(g, d') == lh && HeaderCount(d'[g.start]) == |lh| && |d'| == |d|
  {
    HeaderRoundTrip(d[g.start], lh);
  }

  lemma CommitDisk(g: Geometry, s: State, open: Disk)
    requires RoomyLog(g, s.disk) && GoodList(g, s.disk, s.lh) && |s.lh| < NBUF && Fits(s.lh)
    requires Open(g, s, open) && Copied(g, s, |s.lh|) && forall b :: b in s.cache <==> b in s.lh
    ensures var d' := s.disk[g.start := PutHeader(s.disk[g.start], s.lh)]; DiskInv(g, d', open) && Header(g, d') == s.lh
  {
    hide Header, HeaderCount, PutHeader, Open, Copied, Represents, GoodList;
    HeaderIs(g, s.disk, s.lh);
    CommitOne(g, s, open, PutHeader(s.disk[g.start], s.lh));
  }

  lemma GoodFits(g: Geometry, d: Disk, lh: seq<nat>)
    requires GoodList(g, d, lh) && |d| <= UINT_LIMIT
    ensures Fits(lh)
  {
  }

  /** The commit point: from this write on, the open group belongs to the recovered content. */
  lemma CommitKeeps(g: Geometry, d0: Disk, s: State)
    requires CrashInv(g, d0, s) && s.phase == Copy(|s.lh|) && |s.lh| < NBUF
    ensures Fits(s.lh) && CrashInv(g, d0, AfterCommit(g, s))
  {
    hide Replay, Header, HeaderCount, PutHeader, DiskInv, Open, Copied, GoodList;
    CopyFacts(g, d0, s);
    GoodFits(g, s.disk, s.lh);
    var s' := AfterCommit(g, s);
    CommitDisk(g, s, Replay(d0, s.durable + s.current));
    SameLength(g, s.disk, s'.disk, s.lh);
    assert s'.durable + s'.current == s.durable + s.current;
    assert s'.lh[0..] == s.lh;
  }

  lemma SameHeader(g: Geometry, d: Disk, d': Disk)
    requires |d'| == |d| && g.start < |d| && d'[g.start] == d[g.start]
    ensures Header(g, d') == Header(g, d)
  {
  }

  lemma InstallDisk(g: Geometry, d: Disk, lh: seq<nat>, k: nat, goal: Disk)
    requires DiskInv(g, d, goal) && Header(g, d) == lh && Installed(g, d, lh, k) && k < |lh|
    ensures lh[k] < |d| && g.start + 1 + k < |d|
    ensures var d' := d[lh[k] := d[g.start + 1 + k]];
      DiskInv(g, d', goal) && Header(g, d') == lh && Installed(g, d', lh, k + 1)
  {
    hide Header, HeaderCount, HeaderBlocks, Installed;
    InstallOne(g, d, lh, k, goal);
    SameHeader(g, d, d[lh[k] := LogBlock(g, d, k)]);
  }

  lemma InstallKeeps(g: Geometry, d0: Disk, s: State, k: nat)
    requires CrashInv(g, d0, s) && s.phase == Install(k) && k < |s.lh| && Enabled(g, s, DiskWrite)
    ensures CrashInv(g, d0, AfterInstall(g, s, k, Install(k + 1)))
  {
    InstallDisk(g, s.disk, s.lh, k, Replay(d0, s.durable));
    PinnedInstall(g, s, k);
    hide Replay, Header, DiskInv, Installed, Distinct, Pinned;
  }

  lemma RecoverKeeps(g: Geometry, d0: Disk, s: State, k: nat)
    requires CrashInv(g, d0, s) && s.phase == Recover(k) && k < |s.lh|
    ensures CrashInv(g, d0, AfterInstall(g, s, k, Recover(k + 1)))
  {
    InstallDisk(g, s.disk, s.lh, k, Replay(d0, s.durable));
    hide Replay, Header, DiskInv, Installed, Distinct;
  }

  /** Once everything is installed, the home blocks themselves hold the committed content. */
  lemma AllInstalled(g: Geometry, d: Disk, lh: seq<nat>, goal: Disk)
    requires Represents(g, d, lh, goal) && Installed(g, d, lh, |lh|)
    ensures HomeBlocksEqual(g, d, goal)
  {
    forall b: nat | Home(g, d, b)
      ensures d[b] == goal[b]
    {
      if b in lh {
        var i :| 0 <= i < |lh| && lh[i] == b;
        assert d[lh[i]] == LogBlock(g, d, i);
      }
    }
  }

  lemma ClearDisk(g: Geometry, d: Disk, lh: seq<nat>, goal: Disk)
    requires DiskInv(g, d, goal) && Header(g, d) == lh && Installed(g, d, lh, |lh|)
    ensures var d' := d[g.start := PutHeader(d[g.start], [])];
      DiskInv(g, d', goal) && Header(g, d') == [] && HomeBlocksEqual(g, d', goal)
  {
    AllInstalled(g, d, lh, goal);
    HeaderIs(g, d, []);
    hide Header, HeaderCount, HeaderBlocks, PutHeader;
  }

  lemma ClearKeeps(g: Geometry, d0: Disk, s: State, next: Phase)
    requires CrashInv(g, d0, s) && s.phase in {Install(|s.lh|), Recover(|s.lh|)} && next in {Done, Idle}
    ensures CrashInv(g, d0, AfterClear(g, s, next))
  {
    var s' := AfterClear(g, s, next);
    ClearDisk(g, s.disk, s.lh, Replay(d0, s.durable));
    assert s.durable + s.current == s.durable;
    assert s.lh[|s.lh|..] == [];
    assert s'.cache == map[];
    hide Replay, Header, HeaderCount, PutHeader, DiskInv, Installed;
  }

  lemma CommitWriteKeeps(g: Geometry, d0: Disk, s: State)
    requires CrashInv(g, d0, s) && Enabled(g, s, DiskWrite) && s.phase.Copy?
    ensures CrashInv(g, d0, TakeWrite(g, s))
  {
    hide CrashInv, Pinned, Distinct, AfterCopy, AfterCommit, PutHeader, Fits;
    CopyPins(g, d0, s);
    WriteFacts(g, d0, s);
    if |s.cache| >= NBUF {
      QuietKeeps(g, d0, s, s.(phase := NoBuffers));
    } else if s.phase.k < |s.lh| {
      CopyKeeps(g, d0, s, s.phase.k);
    } else {
      CommitKeeps(g, d0, s);
    }
  }

  lemma WriteKeeps(g: Geometry, d0: Disk, s: State)
    requires CrashInv(g, d0, s) && Enabled(g, s, DiskWrite)
    ensures CrashInv(g, d0, TakeWrite(g, s))
  {
    hide CrashInv, AfterCopy, AfterCommit, AfterInstall, AfterClear, PutHeader, Fits;
    if s.phase.Copy? {
      CommitWriteKeeps(g, d0, s);
    } else {
      HasBuffer(g, d0, s);
      match s.phase
      case Install(k) => if k < |s.lh| { InstallKeeps(g, d0, s, k); } else { ClearKeeps(g, d0, s, Done); }
      case Recover(k) => if k < |s.lh| { RecoverKeeps(g, d0, s, k); } else { ClearKeeps(g, d0, s, Idle); }
    }
  }

  lemma CrashStep(g: Geometry, d0: Disk, s: State, step: Step)
    requires Reserved(g, s) && CrashInv(g, d0, s) && Enabled(g, s, step)
    ensures CrashInv(g, d0, TakeStep(g, s, step))
  {
    hide CrashInv, Reserved;
    match step
    case BeginOp => BeginKeeps(g, d0, s);
    case Check(op) => CheckKeeps(g, d0, s, op);
    case LogWrite(op, b, data) =>
      ReservedLogWrite(g, s, op, b, data);
      LogFits(g, AfterLogWrite(s, op, b, data));
      LogWriteKeeps(g, d0, s, op, b, data);
    case EndOp(op) => EndKeeps(g, d0, s, op);
    case DiskWrite => WriteKeeps(g, d0, s);
    case Finish => FinishKeeps(g, d0, s);
    case Crash => CrashKeeps(g, d0, s);
    case ReadHead => ReadHeadKeeps(g, d0, s);
  }

  lemma {:induction false} CrashInvAlways(g: Geometry, s0: State, steps: seq<Step>)
    requires Init(g, s0) && RoomyLog(g, s0.disk) && Exec(g, s0, steps).Some?
    ensures CrashInv(g, s0.disk, Exec(g, s0, steps).value)
  {
    if steps == [] {
      CrashInit(g, s0);
    } else {
      hide CrashInv, Reserved, Enabled;
      var n := |steps| - 1;
      CrashInvAlways(g, s0, steps[..n]);
      ReservedAlways(g, s0, steps[..n]);
      CrashStep(g, s0.disk, Exec(g, s0, steps[..n]).value, steps[n]);
    }
  }

  // ---------- Crash atomicity ----------

  lemma {:induction false} ExecConcat(g: Geometry, s: State, a: seq<Step>, b: seq<Step>)
    requires Exec(g, s, a).Some?
    ensures Exec(g, s, a + b) == Exec(g, Exec(g, s, a).value, b)
  {
    if b == [] {
      assert a + b == a;
    } else {
      var n := |b| - 1;
      ExecConcat(g, s, a, b[..n]);
      assert (a + b)[..|a + b| - 1] == a + b[..n];
    }
  }

  /** A reboot: nothing but reading the header, recovery writes and further crashes. */
  predicate Reboot(steps: seq<Step>)
  {
    forall i :: 0 <= i < |steps| ==> steps[i] in {Crash, ReadHead, DiskWrite}
  }

  predicate Rebooting(s: State)
  {
    s.cache == map[] && (s.phase == Down || s.phase.Recover? || (s.phase == Idle && s.lh == [] && s.current == []))
  }

  /** No reboot, however often interrupted, changes what has been committed. */
  lemma {:induction false} RebootKeepsDurable(g: Geometry, s: State, steps: seq<Step>)
    requires s.phase == Down && s.current == [] && s.cache == map[] && Reboot(steps) && Exec(g, s, steps).Some?
    ensures var t := Exec(g, s, steps).value; Rebooting(t) && t.durable == s.durable && t.current == []
  {
    if steps != [] {
      var n := |steps| - 1;
      RebootKeepsDurable(g, s, steps[..n]);
      RebootStep(g, Exec(g, s, steps[..n]).value, steps[n]);
    }
  }

  lemma RebootStep(g: Geometry, s: State, step: Step)
    requires Rebooting(s) && s.current == [] && step in {Crash, ReadHead, DiskWrite} && Enabled(g, s, step)
    ensures var t := TakeStep(g, s, step); Rebooting(t) && t.durable == s.durable && t.current == []
  {
    hide HeaderBlocks, PutHeader;
  }

  lemma IdleContent(g: Geometry, d0: Disk, s: State)
    requires CrashInv(g, d0, s) && s.phase == Idle && s.lh == [] && s.current == []
    ensures HomeBlocksEqual(g, s.disk, Replay(d0, s.durable))
  {
    hide Replay, Header, DiskInv;
    assert s.durable + s.current == s.durable;
    forall b: nat | Home(g, s.disk, b)
      ensures s.disk[b] == Replay(d0, s.durable)[b]
    {
      assert View(s, b) == s.disk[b];
    }
  }

  /** Crash atomicity. Take any run, crash it anywhere, and let recovery run, crashing any number of times
      on the way: when recovery completes, the file system is exactly what the log_writes of the groups
      committed before the first crash made it, and nothing else. */
  lemma CrashAtomicity(g: Geometry, s0: State, run: seq<Step>, reboot: seq<Step>)
    requires Init(g, s0) && RoomyLog(g, s0.disk)
    requires Exec(g, s0, run).Some?
    requires Reboot(reboot) && Exec(g, s0, run + [Crash] + reboot).Some?
    ensures var before := Exec(g, s0, run).value;
      var after := Exec(g, s0, run + [Crash] + reboot).value;
      && after.durable == before.durable
      && (after.phase == Idle ==> HomeBlocksEqual(g, after.disk, Replay(s0.disk, before.durable)))
  {
    hide CrashInv, Exec, Replay, HomeBlocksEqual;
    var before := Exec(g, s0, run).value;
    var after := Exec(g, s0, run + [Crash] + reboot).value;
    ExecAppend(g, s0, run, Crash);
    ExecConcat(g, s0, run + [Crash], reboot);
    RebootKeepsDurable(g, AfterCrash(before), reboot);
    CrashInvAlways(g, s0, run + [Crash] + reboot);
    if after.phase == Idle {
      IdleContent(g, s0.disk, after);
    }
  }

  function Repeat(n: nat): (r: seq<Step>)
  {
    seq(n, i => DiskWrite)
  }

  lemma ReadThen(g: Geometry, s: State, m: State, k: nat, t: State)
    requires Enabled(g, s, ReadHead) && m == TakeStep(g, s, ReadHead) && Exec(g, m, Repeat(k)) == Some(t)
    ensures Exec(g, s, [ReadHead] + Repeat(k)) == Some(t)
  {
    assert Exec(g, s, []) == Some(s);
    ExecAppend(g, s, [], ReadHead);
    assert [] + [ReadHead] == [ReadHead];
    ExecConcat(g, s, [ReadHead], Repeat(k));
  }

  lemma RepeatOne(g: Geometry, s: State, k: nat, m: State)
    requires Exec(g, s, Repeat(k)) == Some(m) && Enabled(g, m, DiskWrite)
    ensures Exec(g, s, Repeat(k + 1)) == Some(TakeWrite(g, m))
  {
    assert Repeat(k + 1) == Repeat(k) + [DiskWrite];
    ExecAppend(g, s, Repeat(k), DiskWrite);
  }

  lemma RepeatMore(g: Geometry, s: State, k: nat, m: State, j: nat, t: State)
    requires Exec(g, s, Repeat(k)) == Some(m) && Exec(g, m, Repeat(j)) == Some(t)
    ensures Exec(g, s, Repeat(k + j)) == Some(t)
  {
    ExecConcat(g, s, Repeat(k), Repeat(j));
    assert Repeat(k + j) == Repeat(k) + Repeat(j);
  }

  lemma LastWrite(g: Geometry, s: State, n: nat, t: State)
    requires n > 0 && Exec(g, s, Repeat(n)) == Some(t)
    ensures var r := Exec(g, s, Repeat(n - 1));
      r.Some? && Enabled(g, r.value, DiskWrite) && t == TakeWrite(g, r.value)
    ensures Repeat(n) == Repeat(n - 1) + [DiskWrite]
  {
    assert Repeat(n)[..n - 1] == Repeat(n - 1);
    hide TakeWrite;
  }

  lemma StartRun(g: Geometry, s: State)
    ensures Exec(g, s, Repeat(0)) == Some(s)
  {
  }

  lemma WriteFacts(g: Geometry, d0: Disk, s: State)
    requires CrashInv(g, d0, s) && (s.phase.Copy? || s.phase.Install? || s.phase.Recover?)
    ensures s.phase.k <= |s.lh| && (!s.phase.Copy? || s.phase.k > 0 ==> |s.lh| < NBUF)
    ensures RoomyLog(g, s.disk)
  {
    hide Replay, HeaderCount, View, Distinct;
  }

  lemma CanWrite(g: Geometry, d0: Disk, s: State)
    requires CrashInv(g, d0, s) && (s.phase.Copy? || s.phase.Install? || s.phase.Recover?)
    ensures Enabled(g, s, DiskWrite)
  {
    hide DiskInv, PhaseInv, Replay, Pinned, Distinct;
    WriteFacts(g, d0, s);
    GoodFits(g, s.disk, s.lh);
  }

  lemma DownMemory(g: Geometry, d0: Disk, s: State)
    requires CrashInv(g, d0, s) && s.phase == Down
    ensures s.lh == [] && s.cache == map[]
  {
    hide DiskInv, PhaseInv, Replay, GoodList;
  }

  lemma CopyPins(g: Geometry, d0: Disk, s: State)
    requires CrashInv(g, d0, s) && s.phase.Copy?
    ensures |s.cache| == |s.lh|
  {
    hide DiskInv, PhaseInv, Replay;
    PinnedCount(s);
  }

  lemma HasBuffer(g: Geometry, d0: Disk, s: State)
    requires CrashInv(g, d0, s) && (s.phase.Install? || s.phase.Recover?)
    ensures |s.cache| < NBUF
  {
    hide DiskInv, PhaseInv, Replay, GoodList;
    PinnedFew(s);
  }

  lemma CanRead(g: Geometry, d0: Disk, s: State)
    requires CrashInv(g, d0, s) && s.phase == Down
    ensures Enabled(g, s, ReadHead)
  {
  }

  lemma NoOpenGroup(g: Geometry, d0: Disk, s: State)
    requires CrashInv(g, d0, s) && (s.phase.Install? || s.phase.Recover?)
    ensures s.current == []
  {
  }

  lemma NothingOpen(g: Geometry, d0: Disk, s: State)
    requires CrashInv(g, d0, s) && s.phase == Done
    ensures s.current == []
  {
  }

  lemma RecoveryRuns(g: Geometry, d0: Disk, s: State, k: nat)
    requires CrashInv(g, d0, s) && s.phase == Recover(k)
    ensures Exec(g, s, Repeat(|s.lh| - k + 1)).Some?
    ensures Exec(g, s, Repeat(|s.lh| - k + 1)).value.phase == Idle
    decreases |s.lh| - k
  {
    hide CrashInv, Exec;
    CanWrite(g, d0, s);
    HasBuffer(g, d0, s);
    WriteKeeps(g, d0, s);
    StartRun(g, s);
    RepeatOne(g, s, 0, s);
    if k < |s.lh| {
      var s' := TakeWrite(g, s);
      RecoveryRuns(g, d0, s', k + 1);
      RepeatMore(g, s, 1, s', |s.lh| - k, Exec(g, s', Repeat(|s.lh| - k)).value);
    }
  }

  lemma RebootRuns(g: Geometry, d0: Disk, c: State)
    requires CrashInv(g, d0, c) && c.phase == Down
    ensures var r := Exec(g, c, [ReadHead] + Repeat(|Header(g, c.disk)| + 1)); r.Some? && r.value.phase == Idle
  {
    hide CrashInv, Exec;
    CanRead(g, d0, c);
    ReadHeadKeeps(g, d0, c);
    var h := TakeStep(g, c, ReadHead);
    RecoveryRuns(g, d0, h, 0);
    ReadThen(g, c, h, |h.lh| + 1, Exec(g, h, Repeat(|h.lh| + 1)).value);
  }

  /** After any crash, an undisturbed recovery completes: it reads the header, writes each logged block
      home and clears the header. */
  lemma RecoveryCompletes(g: Geometry, s0: State, run: seq<Step>)
    requires Init(g, s0) && RoomyLog(g, s0.disk) && Exec(g, s0, run).Some?
    ensures var n := |Header(g, Exec(g, s0, run).value.disk)|;
      var r := Exec(g, s0, run + [Crash] + ([ReadHead] + Repeat(n + 1)));
      r.Some? && r.value.phase == Idle
  {
    hide CrashInv, Exec, Header;
    var s := Exec(g, s0, run).value;
    ExecAppend(g, s0, run, Crash);
    CrashInvAlways(g, s0, run + [Crash]);
    ExecConcat(g, s0, run + [Crash], [ReadHead] + Repeat(|Header(g, s.disk)| + 1));
    RebootRuns(g, s0.disk, AfterCrash(s));
  }

  // ---------- Each operation is committed whole or not at all ----------

  predicate Wrote(ws: seq<Write>, op: nat)
  {
    exists i :: 0 <= i < |ws| && ws[i].op == op
  }

  /** The writes of one operation are all committed, all in the open group, or all lost, and an operation
      still running has no committed or lost write. */
  ghost predicate Whole(s: State)
  {
    && (forall op: nat :: Wrote(s.durable, op) ==> !Wrote(s.current, op) && !Wrote(s.lost, op))
    && (forall op: nat :: Wrote(s.current, op) ==> !Wrote(s.lost, op))
    && (forall op: nat :: Wrote(s.durable, op) || Wrote(s.lost, op) ==> op < |s.ops| && !s.ops[op].active)
    && (forall op: nat :: Wrote(s.current, op) ==> op < |s.ops|)
  }

  lemma WroteConcat(a: seq<Write>, b: seq<Write>, op: nat)
    ensures Wrote(a + b, op) <==> Wrote(a, op) || Wrote(b, op)
  {
    if Wrote(a, op) {
      var i :| 0 <= i < |a| && a[i].op == op;
      assert (a + b)[i] == a[i];
    }
    if Wrote(b, op) {
      var i :| 0 <= i < |b| && b[i].op == op;
      assert (a + b)[|a| + i] == b[i];
    }
  }

  lemma WroteAfter(g: Geometry, s: State, step: Step, op: nat)
    requires Enabled(g, s, step)
    ensures var s' := TakeStep(g, s, step);
      && (Wrote(s'.current, op) ==> Wrote(s.current, op) || (step.LogWrite? && op == step.op))
      && (Wrote(s'.durable, op) ==> Wrote(s.durable, op) || (step.DiskWrite? && Wrote(s.current, op)))
      && (Wrote(s'.lost, op) ==> Wrote(s.lost, op) || (step.Crash? && Wrote(s.current, op)))
      && (Wrote(s'.durable, op) && Wrote(s'.current, op) ==> Wrote(s.durable, op))
      && (Wrote(s'.lost, op) && Wrote(s'.current, op) ==> Wrote(s.lost, op))
  {
    WroteConcat(s.durable, s.current, op);
    WroteConcat(s.lost, s.current, op);
    if step.LogWrite? {
      WroteConcat(s.current, [Write(step.op, step.blockno, step.data)], op);
    }
    hide HeaderBlocks, PutHeader, Stopped;
  }

  /** No operation becomes active again, and a group commits, or is lost, only when none is. */
  lemma OpsAfter(g: Geometry, s: State, step: Step)
    requires Reserved(g, s) && Enabled(g, s, step)
    ensures var s' := TakeStep(g, s, step);
      && |s.ops| <= |s'.ops| && (step.LogWrite? ==> step.op < |s.ops| && s.ops[step.op].active)
      && forall i :: 0 <= i < |s.ops| ==>
           (s'.ops[i].active ==> s.ops[i].active) && (step.DiskWrite? || step.Crash? ==> !s'.ops[i].active)
  {
    if step.DiskWrite? {
      SumsBound(s.ops);
    }
    hide HeaderBlocks, PutHeader, Count, Budget, Distinct;
  }

  lemma WholeStep(g: Geometry, s: State, step: Step)
    requires Whole(s) && Reserved(g, s) && Enabled(g, s, step)
    ensures Whole(TakeStep(g, s, step))
  {
    hide Wrote, TakeStep, Enabled, Reserved;
    var s' := TakeStep(g, s, step);
    forall op: nat
      ensures Wrote(s'.current, op) ==> Wrote(s.current, op) || (step.LogWrite? && op == step.op)
      ensures Wrote(s'.durable, op) ==> Wrote(s.durable, op) || (step.DiskWrite? && Wrote(s.current, op))
      ensures Wrote(s'.lost, op) ==> Wrote(s.lost, op) || (step.Crash? && Wrote(s.current, op))
      ensures Wrote(s'.durable, op) && Wrote(s'.current, op) ==> Wrote(s.durable, op)
      ensures Wrote(s'.lost, op) && Wrote(s'.current, op) ==> Wrote(s.lost, op)
    {
      WroteAfter(g, s, step, op);
    }
    OpsAfter(g, s, step);
  }

  /** Group commit is transparent: in every reachable state each operation is durable whole or not at all. */
  lemma {:induction false} OperationsAreAtomic(g: Geometry, s0: State, steps: seq<Step>)
    requires Init(g, s0) && Exec(g, s0, steps).Some?
    ensures Whole(Exec(g, s0, steps).value)
  {
    if steps != [] {
      var n := |steps| - 1;
      OperationsAreAtomic(g, s0, steps[..n]);
      ReservedAlways(g, s0, steps[..n]);
      WholeStep(g, Exec(g, s0, steps[..n]).value, steps[n]);
    }
  }

  /** Every log_write of a run. */
  function Made(steps: seq<Step>): (r: seq<Write>)
  {
    if steps == [] then [] else
      var n := |steps| - 1;
      Made(steps[..n]) +
      if steps[n].LogWrite? then [Write(steps[n].op, steps[n].blockno, steps[n].data)] else []
  }

  /** The writes of a state, wherever they are. */
  ghost function Recorded(s: State): (m: multiset<Write>)
  {
    multiset(s.durable) + multiset(s.current) + multiset(s.lost)
  }

  lemma RecordedStep(g: Geometry, s: State, step: Step)
    requires Enabled(g, s, step)
    ensures Recorded(TakeStep(g, s, step)) ==
      Recorded(s) + if step.LogWrite? then multiset{Write(step.op, step.blockno, step.data)} else multiset{}
  {
    hide PutHeader, HeaderBlocks, HeaderCount, Home, Stopped, WriteBlock;
    if step.DiskWrite? {
      RecordedWrite(g, s);
    }
    Joined(s.lost, s.current);
  }

  lemma Joined(a: seq<Write>, b: seq<Write>)
    ensures multiset(a + b) == multiset(a) + multiset(b)
  {
  }

  lemma RecordedWrite(g: Geometry, s: State)
    requires Enabled(g, s, DiskWrite)
    ensures Recorded(WriteBlock(g, s)) == Recorded(s)
  {
    hide PutHeader, HeaderBlocks, HeaderCount, Home;
    Joined(s.durable, s.current);
  }

  /** No log_write is forgotten or made up: each is durable, in the open group or lost. */
  lemma {:induction false} EveryWriteRecorded(g: Geometry, s0: State, steps: seq<Step>)
    requires Init(g, s0) && Exec(g, s0, steps).Some?
    ensures multiset(Made(steps)) == Recorded(Exec(g, s0, steps).value)
  {
    if steps != [] {
      var n := |steps| - 1;
      EveryWriteRecorded(g, s0, steps[..n]);
      hide Recorded;
      RecordedStep(g, Exec(g, s0, steps[..n]).value, steps[n]);
    }
  }

  lemma Absent(ws: seq<Write>, w: Write)
    ensures !Wrote(ws, w.op) ==> multiset(ws)[w] == 0
  {
    if multiset(ws)[w] > 0 {
      var i :| 0 <= i < |ws| && ws[i] == w;
    }
  }

  lemma OneFate(s: State, w: Write)
    requires Whole(s) && Recorded(s)[w] > 0
    ensures Wrote(s.durable, w.op) ==> multiset(s.durable)[w] == Recorded(s)[w]
    ensures Wrote(s.lost, w.op) ==> multiset(s.lost)[w] == Recorded(s)[w]
  {
    Absent(s.durable, w);
    Absent(s.current, w);
    Absent(s.lost, w);
    hide Wrote;
  }

  /** So once one write of an operation is durable, every write it made is, and the same for a lost one. */
  lemma DurableWhole(g: Geometry, s0: State, steps: seq<Step>, w: Write)
    requires Init(g, s0) && Exec(g, s0, steps).Some? && w in Made(steps)
    ensures var s := Exec(g, s0, steps).value;
      && (Wrote(s.durable, w.op) ==> multiset(s.durable)[w] == multiset(Made(steps))[w] > 0)
      && (Wrote(s.lost, w.op) ==> multiset(s.lost)[w] == multiset(Made(steps))[w] > 0)
  {
    hide Exec, Made, Recorded, Whole, Wrote;
    OperationsAreAtomic(g, s0, steps);
    EveryWriteRecorded(g, s0, steps);
    assert multiset(Made(steps))[w] > 0;
    OneFate(Exec(g, s0, steps).value, w);
  }
}
