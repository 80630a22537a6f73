/** How large the on-disk log and a group may be. `log_write` reads its size check before it takes the lock, mkfs gives
    the log LOGSIZE blocks of which one is the header, and a group pins one of NBUF buffers per block. */
module LogLimits {
  import opened Blocks
  import opened LogMachine
  import LC = LogCrash
  import opened Options
  import opened Params

  // ---------- The "too big a transaction" panic ----------

  /** No operation has called log_write more than c times. */
  predicate CallsAtMost(s: State, c: nat)
  {
    forall i :: 0 <= i < |s.ops| ==> s.ops[i].calls <= c
  }

  predicate Frugal(s: State)
  {
    CallsAtMost(s, MAXOPBLOCKS)
  }

  ghost predicate PanicCause(g: Geometry, s: State)
  {
    s.phase == Panicked ==>
      && (|s.lh| >= LOGSIZE || |s.lh| >= g.size - 1)
      && exists i :: 0 <= i < |s.ops| && s.ops[i].active && s.ops[i].inCall
  }

  lemma {:induction false} PanicCauseAlways(g: Geometry, s0: State, steps: seq<Step>)
    requires Init(g, s0) && Exec(g, s0, steps).Some?
    ensures PanicCause(g, Exec(g, s0, steps).value)
  {
    if steps != [] {
      var n := |steps| - 1;
      PanicCauseAlways(g, s0, steps[..n]);
      var m := Exec(g, s0, steps[..n]).value;
      if steps[n].Check? {
        var s := Exec(g, s0, steps).value;
        assert s.ops[steps[n].op].inCall;
      }
    }
  }

  /** In a log with a block to spare no transaction of operations that keep to MAXOPBLOCKS calls is too big. */
  lemma NoPanic(g: Geometry, s0: State, steps: seq<Step>)
    requires Init(g, s0) && g.size >= LOGSIZE + 1
    requires Exec(g, s0, steps).Some? && Frugal(Exec(g, s0, steps).value)
    ensures Exec(g, s0, steps).value.phase != Panicked
  {
    var s := Exec(g, s0, steps).value;
    PanicCauseAlways(g, s0, steps);
    ReservedAlways(g, s0, steps);
    SumsBound(s.ops);
  }

  /** The locked part of log_write never indexes past lh.block, and a buffer was left for the block it appends. */
  lemma AppendInRange(g: Geometry, s0: State, steps: seq<Step>, op: nat, b: nat, data: Block)
    requires Init(g, s0) && Exec(g, s0, steps).Some?
    requires Enabled(g, Exec(g, s0, steps).value, Step.LogWrite(op, b, data))
    ensures var s := Exec(g, s0, steps).value; b !in s.lh ==> |s.lh| < LOGSIZE && b !in s.cache && |s.cache| < NBUF
  {
    var s := Exec(g, s0, steps).value;
    ReservedAlways(g, s0, steps);
    SumsBound(s.ops);
    PinnedAlways(g, s0, steps);
    PinnedCount(s);
  }

  // ---------- Runs that exhaust a small log ----------

  /** Thirty different blocks of the file system. */
  predicate HomeList(g: Geometry, d: Disk, h: seq<nat>)
  {
    |h| == LOGSIZE && Distinct(h) && forall i :: 0 <= i < |h| ==> Home(g, d, h[i])
  }

  /** Three operations have begun and made the first m blocks of h `data`; they differ only in `ops`. */
  ghost predicate Filled(s0: State, s: State, h: seq<nat>, m: nat, data: Block)
  {
    && m <= |h| == LOGSIZE
    && s.disk == s0.disk && s.phase == Idle && s.outstanding == 3 && |s.ops| == 3
    && s.lh == h[..m] && s.durable == []
    && forall i :: 0 <= i < m ==> h[i] in s.cache && s.cache[h[i]] == data
  }

  ghost predicate Reached(g: Geometry, s0: State, s: State)
  {
    exists steps :: Exec(g, s0, steps) == Some(s)
  }

  lemma Extend(g: Geometry, s0: State, s: State, step: Step)
    requires Reached(g, s0, s) && Enabled(g, s, step)
    ensures Reached(g, s0, TakeStep(g, s, step))
  {
    var steps :| Exec(g, s0, steps) == Some(s);
    ExecAppend(g, s0, steps, step);
  }

  const Fresh: Op := Op(true, false, 0, 0)

  lemma LoadStart(g: Geometry, s0: State, h: seq<nat>, data: Block) returns (s: State)
    requires Init(g, s0) && HomeList(g, s0.disk, h)
    ensures Reached(g, s0, s) && Filled(s0, s, h, 0, data) && s.ops == [Fresh, Fresh, Fresh]
  {
    assert Exec(g, s0, []) == Some(s0);
    Extend(g, s0, s0, BeginOp);
    var s1 := AfterBegin(s0);
    Extend(g, s0, s1, BeginOp);
    var s2 := AfterBegin(s1);
    Extend(g, s0, s2, BeginOp);
    s := AfterBegin(s2);
  }

  lemma NotYetLogged(h: seq<nat>, m: nat)
    requires Distinct(h) && m < |h|
    ensures h[m] !in h[..m]
    ensures h[..m] + [h[m]] == h[..m + 1]
  {
  }

  lemma FilledCheck(g: Geometry, s0: State, h: seq<nat>, m: nat, data: Block, s: State, op: nat)
    requires Filled(s0, s, h, m, data) && op < 3 && m < LOGSIZE && m < g.size - 1
    ensures Filled(s0, AfterCheck(g, s, op), h, m, data)
  {
  }

  lemma FilledWrite(s0: State, h: seq<nat>, m: nat, data: Block, s: State, op: nat)
    requires Filled(s0, s, h, m, data) && op < 3 && m < LOGSIZE && Distinct(h)
    ensures h[m] !in s.lh && Filled(s0, AfterLogWrite(s, op, h[m], data), h, m + 1, data)
  {
    NotYetLogged(h, m);
  }

  /** A log_write passes its unlocked check. */
  lemma DoCheck(g: Geometry, s0: State, h: seq<nat>, m: nat, data: Block, s: State, op: nat) returns (s': State)
    requires Reached(g, s0, s) && Filled(s0, s, h, m, data)
    requires op < 3 && s.ops[op].active && !s.ops[op].inCall && m < LOGSIZE && m < g.size - 1
    ensures Reached(g, s0, s') && Filled(s0, s', h, m, data)
    ensures s'.ops == s.ops[op := s.ops[op].(inCall := true, calls := s.ops[op].calls + 1)]
  {
    Extend(g, s0, s, Check(op));
    FilledCheck(g, s0, h, m, data, s, op);
    s' := AfterCheck(g, s, op);
  }

  /** Its locked part logs the next block. */
  lemma DoWrite(g: Geometry, s0: State, h: seq<nat>, m: nat, data: Block, s: State, op: nat) returns (s': State)
    requires Reached(g, s0, s) && Filled(s0, s, h, m, data)
    requires HomeList(g, s0.disk, h) && m < LOGSIZE
    requires op < 3 && s.ops[op].active && s.ops[op].inCall && s.ops[op].appends < MAXOPBLOCKS
    ensures Reached(g, s0, s') && Filled(s0, s', h, m + 1, data)
    ensures s'.ops == s.ops[op := s.ops[op].(inCall := false, appends := s.ops[op].appends + 1)]
  {
    FilledWrite(s0, h, m, data, s, op);
    Extend(g, s0, s, Step.LogWrite(op, h[m], data));
    s' := AfterLogWrite(s, op, h[m], data);
  }

  /** Operation `op` logs the next n blocks. */
  lemma {:induction false} Load(g: Geometry, s0: State, h: seq<nat>, m: nat, data: Block, s: State, op: nat, n: nat)
    returns (s': State)
    requires Reached(g, s0, s) && Filled(s0, s, h, m, data) && HomeList(g, s0.disk, h)
    requires op < 3 && s.ops[op] == Fresh && n <= MAXOPBLOCKS && m + n <= LOGSIZE && (n == 0 || m + n < g.size)
    ensures Reached(g, s0, s') && Filled(s0, s', h, m + n, data)
    ensures s'.ops == s.ops[op := Op(true, false, n, n)]
  {
    hide Reached, HomeList;
    if n == 0 {
      s' := s;
    } else {
      s' := Load(g, s0, h, m, data, s, op, n - 1);
      s' := DoCheck(g, s0, h, m + n - 1, data, s', op);
      s' := DoWrite(g, s0, h, m + n - 1, data, s', op);
    }
  }

  function Min(a: nat, b: nat): (r: nat)
  {
    if a < b then a else b
  }

  ghost predicate Shares(s: State, c0: nat, c1: nat, c2: nat)
  {
    s.ops == [Op(true, false, c0, c0), Op(true, false, c1, c1), Op(true, false, c2, c2)]
  }

  /** Three operations share m writes, keeping one or two of their thirty in hand. */
  lemma LoadAll(g: Geometry, s0: State, h: seq<nat>, m: nat, data: Block) returns (s: State, c0: nat, c1: nat, c2: nat)
    requires Init(g, s0) && HomeList(g, s0.disk, h) && m < LOGSIZE && (m == 0 || m < g.size)
    ensures Reached(g, s0, s) && Filled(s0, s, h, m, data) && Shares(s, c0, c1, c2)
    ensures c0 <= MAXOPBLOCKS && c1 < MAXOPBLOCKS && c2 <= MAXOPBLOCKS && (m + 1 < LOGSIZE ==> c2 < MAXOPBLOCKS)
  {
    c0 := Min(m, MAXOPBLOCKS);
    c1 := Min(m - c0, MAXOPBLOCKS - 1);
    c2 := m - c0 - c1;
    s := LoadStart(g, s0, h, data);
    s := Load(g, s0, h, 0, data, s, 0, c0);
    s := Load(g, s0, h, c0, data, s, 1, c1);
    s := Load(g, s0, h, c0 + c1, data, s, 2, c2);
  }

  /** A log of LOGSIZE blocks or fewer can panic although every operation keeps to MAXOPBLOCKS calls. */
  lemma SmallLogPanics(g: Geometry, s0: State, h: seq<nat>) returns (s: State)
    requires Init(g, s0) && HomeList(g, s0.disk, h) && g.size <= LOGSIZE
    ensures Reached(g, s0, s) && Frugal(s) && s.phase == Panicked
  {
    var m: nat := if g.size == 0 then 0 else g.size - 1;
    var c0, c1, c2;
    s, c0, c1, c2 := LoadAll(g, s0, h, m, ZeroBlock());
    Extend(g, s0, s, Check(1));
    s := AfterCheck(g, s, 1);
  }

  // ---------- Overrunning the log area ----------

  /** Two operations pass the unlocked check before either appends: the transaction outgrows the log. */
  lemma Race(g: Geometry, s0: State, h: seq<nat>, data: Block) returns (s: State)
    requires Init(g, s0) && HomeList(g, s0.disk, h) && 2 <= g.size <= LOGSIZE
    ensures Reached(g, s0, s) && Filled(s0, s, h, g.size, data) && Frugal(s)
    ensures forall i :: 0 <= i < 3 ==> s.ops[i].active && !s.ops[i].inCall
  {
    var m := g.size - 2;
    var c0, c1, c2;
    s, c0, c1, c2 := LoadAll(g, s0, h, m, data);
    s := DoCheck(g, s0, h, m, data, s, 1);
    s := DoCheck(g, s0, h, m, data, s, 2);
    s := DoWrite(g, s0, h, m, data, s, 1);
    s := DoWrite(g, s0, h, m + 1, data, s, 2);
  }

  /** write_log has made the first k log blocks `data`; the header still says the log is empty. */
  ghost predicate Copying(g: Geometry, s0: State, s: State, m: nat, k: nat, data: Block)
  {
    && k <= m == |s.lh| <= LOGSIZE && s.phase == Copy(k) && s.durable == [] && s.outstanding == 0
    && |s.disk| == |s0.disk| <= UINT_LIMIT && g.start + m < |s.disk| && s.disk[g.start] == s0.disk[g.start]
    && (forall i :: 0 <= i < m ==> s.lh[i] < |s.disk| && s.lh[i] in s.cache && s.cache[s.lh[i]] == data)
    && (k > 0 ==> s.disk[g.start + k] == data)
  }

  lemma EndAll(g: Geometry, s0: State, h: seq<nat>, m: nat, data: Block, s: State) returns (s': State)
    requires Reached(g, s0, s) && Filled(s0, s, h, m, data) && HomeList(g, s0.disk, h)
    requires forall i :: 0 <= i < 3 ==> s.ops[i].active && !s.ops[i].inCall
    requires 0 < m && g.start + m < |s0.disk| <= UINT_LIMIT
    ensures Reached(g, s0, s') && Copying(g, s0, s', m, 0, data) && (Frugal(s) ==> Frugal(s'))
  {
    Extend(g, s0, s, EndOp(0));
    var s1 := AfterEnd(s, 0);
    Extend(g, s0, s1, EndOp(1));
    var s2 := AfterEnd(s1, 1);
    Extend(g, s0, s2, EndOp(2));
    s' := AfterEnd(s2, 2);
    assert forall i :: 0 <= i < m ==> s'.lh[i] == h[i];
  }

  lemma CopyNext(g: Geometry, s0: State, s: State, m: nat, k: nat, data: Block)
    requires Copying(g, s0, s, m, k, data) && k < m
    ensures Enabled(g, s, DiskWrite) && Copying(g, s0, AfterCopy(g, s, k), m, k + 1, data)
  {
  }

  /** In a reached state a commit has as many pinned buffers as blocks to write. */
  lemma ReachedPins(g: Geometry, s0: State, s: State)
    requires Init(g, s0) && Reached(g, s0, s) && s.phase.Copy?
    ensures Pinned(s) && Distinct(s.lh) && |s.cache| == |s.lh| <= LOGSIZE
  {
    var steps :| Exec(g, s0, steps) == Some(s);
    ReservedAlways(g, s0, steps);
    PinnedAlways(g, s0, steps);
    LC.LogFits(g, s);
    hide Pinned, Reserved;
    assert Distinct(s.lh) by { DistinctReserved(g, s); }
    PinnedCount(s);
  }

  lemma DistinctReserved(g: Geometry, s: State)
    requires Reserved(g, s) && s.phase.Copy?
    ensures Distinct(s.lh)
  {
  }

  lemma CopyTaken(g: Geometry, s0: State, s: State, m: nat, k: nat, data: Block)
    requires Init(g, s0) && Reached(g, s0, s) && Copying(g, s0, s, m, k, data) && k < m < NBUF
    ensures Copying(g, s0, AfterCopy(g, s, k), m, k + 1, data) && Reached(g, s0, AfterCopy(g, s, k))
  {
    hide Reached, Pinned, Distinct;
    ReachedPins(g, s0, s);
    CopyNext(g, s0, s, m, k, data);
    Extend(g, s0, s, DiskWrite);
  }

  lemma {:induction false} CopyMany(g: Geometry, s0: State, s: State, m: nat, k: nat, data: Block) returns (s': State)
    requires Init(g, s0) && Reached(g, s0, s) && Copying(g, s0, s, m, 0, data) && k <= m < NBUF
    ensures Reached(g, s0, s') && Copying(g, s0, s', m, k, data)
  {
    if k == 0 {
      s' := s;
    } else {
      var t := CopyMany(g, s0, s, m, k - 1, data);
      CopyTaken(g, s0, t, m, k - 1, data);
      s' := AfterCopy(g, t, k - 1);
    }
  }

  /** Recovery after run and a crash leaves exactly the committed content. */
  ghost predicate Atomic(g: Geometry, s0: State, run: seq<Step>, reboot: seq<Step>)
  {
    Exec(g, s0, run).Some? && LC.Reboot(reboot) && Exec(g, s0, run + [Crash] + reboot).Some? ==>
      var before := Exec(g, s0, run).value;
      var after := Exec(g, s0, run + [Crash] + reboot).value;
      after.phase == Idle ==> LC.HomeBlocksEqual(g, after.disk, LC.Replay(s0.disk, before.durable))
  }

  /** A reboot that finds an empty header changes no block outside the log. */
  lemma EmptyReboot(g: Geometry, s0: State, run: seq<Step>, s: State) returns (after: State)
    requires Exec(g, s0, run) == Some(s) && g.start < |s.disk| && HeaderCount(s.disk[g.start]) == 0
    ensures Exec(g, s0, run + [Crash] + [ReadHead, DiskWrite]) == Some(after)
    ensures after.phase == Idle && |after.disk| == |s.disk|
    ensures forall b: nat :: b < |s.disk| && b != g.start ==> after.disk[b] == s.disk[b]
  {
    hide Exec, PutHeader;
    ExecAppend(g, s0, run, Crash);
    var c := AfterCrash(s);
    ExecAppend(g, s0, run + [Crash], ReadHead);
    var h := TakeStep(g, c, ReadHead);
    assert h.lh == [];
    ExecAppend(g, s0, run + [Crash] + [ReadHead], DiskWrite);
    assert run + [Crash] + [ReadHead] + [DiskWrite] == run + [Crash] + [ReadHead, DiskWrite];
    after := AfterClear(g, h, Idle);
  }

  /** A run in which write_log reaches the block behind the log. */
  lemma Overrun(g: Geometry, s0: State, h: seq<nat>, data: Block) returns (s: State)
    requires Init(g, s0) && HomeList(g, s0.disk, h) && 2 <= g.size < NBUF && g.start + g.size < |s0.disk|
    ensures Reached(g, s0, s) && s.durable == [] && |s.disk| == |s0.disk|
    ensures HeaderCount(s.disk[g.start]) == 0 && s.disk[g.start + g.size] == data
  {
    s := Race(g, s0, h, data);
    s := EndAll(g, s0, h, g.size, data, s);
    s := CopyMany(g, s0, s, g.size, g.size, data);
  }

  /** With a log of 2 to NBUF - 1 blocks, a transaction that never commits can overwrite the block behind
      the log, and recovery does not undo it. */
  lemma SmallLogCorrupts(g: Geometry, s0: State, h: seq<nat>)
    requires Init(g, s0) && HomeList(g, s0.disk, h) && 2 <= g.size < NBUF && g.start + g.size < |s0.disk|
    ensures exists run, reboot :: !Atomic(g, s0, run, reboot)
  {
    var victim := g.start + g.size;
    var data: Block := if s0.disk[victim][0] == 0 then ZeroBlock()[0 := 1] else ZeroBlock();
    var s := Overrun(g, s0, h, data);
    var run :| Exec(g, s0, run) == Some(s);
    var after := EmptyReboot(g, s0, run, s);
    assert after.disk[victim] == data != s0.disk[victim];
    assert LC.Replay(s0.disk, []) == s0.disk;
    assert Home(g, after.disk, victim);
    assert !LC.HomeBlocksEqual(g, after.disk, s0.disk);
    assert !Atomic(g, s0, run, [ReadHead, DiskWrite]);
  }

  // ---------- Logs without room for a single block ----------

  lemma ZeroHeaderSame(b: Block)
    requires HeaderCount(b) == 0
    ensures PutHeader(b, []) == b
  {
    assert PutHeader(b, []) == PutWord(b, 0, 0);
    assert b[0] == 0 && b[1] == 0 && b[2] == 0 && b[3] == 0;
  }

  /** Every log_write panics, so nothing is ever logged and the disk never changes. */
  ghost predicate Untouched(d: Disk, s: State)
  {
    && s.disk == d && s.lh == [] && s.cache == map[] && s.durable == [] && s.current == []
    && (s.phase in {Idle, Done, Down, Panicked} || s.phase == Recover(0))
    && (s.phase == Idle ==> forall i :: 0 <= i < |s.ops| ==> !s.ops[i].inCall)
  }

  lemma TinyStep(g: Geometry, d: Disk, s: State, step: Step)
    requires g.size <= 1 && g.start < |d| && HeaderCount(d[g.start]) == 0
    requires Untouched(d, s) && Enabled(g, s, step) && Reserved(g, s)
    ensures Untouched(d, TakeStep(g, s, step))
  {
    ZeroHeaderSame(d[g.start]);
    assert d[g.start := d[g.start]] == d;
    hide PutHeader, HeaderCount;
    if step == ReadHead {
      assert HeaderBlocks(d[g.start]) == [];
    }
    if s.phase != Idle && s.phase != Panicked {
      SumsBound(s.ops);
    }
  }

  lemma {:induction false} TinyAlways(g: Geometry, s0: State, steps: seq<Step>)
    requires Init(g, s0) && g.size <= 1 && Exec(g, s0, steps).Some?
    ensures Untouched(s0.disk, Exec(g, s0, steps).value)
  {
    if steps != [] {
      var n := |steps| - 1;
      TinyAlways(g, s0, steps[..n]);
      ReservedAlways(g, s0, steps[..n]);
      hide Untouched, Enabled, Reserved;
      TinyStep(g, s0.disk, Exec(g, s0, steps[..n]).value, steps[n]);
    }
  }

  lemma TinyAtomic(g: Geometry, s0: State, run: seq<Step>, reboot: seq<Step>)
    requires Init(g, s0) && g.size <= 1
    ensures Atomic(g, s0, run, reboot)
  {
    if Exec(g, s0, run).Some? && Exec(g, s0, run + [Crash] + reboot).Some? {
      TinyAlways(g, s0, run);
      TinyAlways(g, s0, run + [Crash] + reboot);
      assert LC.Replay(s0.disk, []) == s0.disk;
      hide Exec;
    }
  }

  // ---------- How large the log must be ----------

  lemma RoomyAtomic(g: Geometry, s0: State, run: seq<Step>, reboot: seq<Step>)
    requires Init(g, s0) && LC.RoomyLog(g, s0.disk)
    ensures Atomic(g, s0, run, reboot)
  {
    if Exec(g, s0, run).Some? && LC.Reboot(reboot) && Exec(g, s0, run + [Crash] + reboot).Some? {
      hide Exec, LC.HomeBlocksEqual, LC.Replay;
      LC.CrashAtomicity(g, s0, run, reboot);
    }
  }

  /** Crash atomicity holds in every run exactly when the log has at least LOGSIZE blocks, or none to log into. */
  lemma AtomicIffRoomy(g: Geometry, s0: State, h: seq<nat>)
    requires Init(g, s0) && HomeList(g, s0.disk, h) && g.start + g.size < |s0.disk|
    ensures g.size >= LOGSIZE || g.size <= 1 <==> forall run, reboot :: Atomic(g, s0, run, reboot)
  {
    if g.size >= LOGSIZE || g.size <= 1 {
      forall run, reboot
        ensures Atomic(g, s0, run, reboot)
      {
        if g.size <= 1 {
          TinyAtomic(g, s0, run, reboot);
        } else {
          RoomyAtomic(g, s0, run, reboot);
        }
      }
    } else {
      SmallLogCorrupts(g, s0, h);
    }
  }

  // ---------- How large a group may be ----------

  /** A write of commit or recovery is the "no buffers" panic exactly when write_log starts on NBUF blocks. */
  lemma BuffersRunOut(g: Geometry, s0: State, steps: seq<Step>)
    requires Init(g, s0) && Exec(g, s0, steps).Some? && Enabled(g, Exec(g, s0, steps).value, DiskWrite)
    ensures var s := Exec(g, s0, steps).value;
      TakeWrite(g, s).phase == NoBuffers <==> s.phase == Copy(0) && |s.lh| == NBUF
  {
    var s := Exec(g, s0, steps).value;
    ReservedAlways(g, s0, steps);
    PinnedAlways(g, s0, steps);
    LC.LogFits(g, s);
    if s.phase.Copy? {
      DistinctReserved(g, s);
    }
    hide Pinned, Reserved, Exec;
    PinnedWrite(g, s);
  }

  /** The writes of a commit bring a state to Done. */
  ghost predicate Commits(g: Geometry, s: State)
  {
    exists n, t :: Exec(g, s, LC.Repeat(n)) == Some(t) && t.phase == Done && t.durable == s.durable + s.current
  }

  lemma {:induction false} InstallRuns(g: Geometry, d0: Disk, s: State, k: nat) returns (n: nat, t: State)
    requires LC.CrashInv(g, d0, s) && s.phase == Install(k)
    ensures Exec(g, s, LC.Repeat(n)) == Some(t) && t.phase == Done && t.durable == s.durable
    decreases |s.lh| - k
  {
    hide LC.CrashInv, Exec;
    LC.CanWrite(g, d0, s);
    LC.HasBuffer(g, d0, s);
    LC.WriteKeeps(g, d0, s);
    LC.StartRun(g, s);
    LC.RepeatOne(g, s, 0, s);
    n, t := 1, TakeWrite(g, s);
    if k < |s.lh| {
      var s', m := t, 0;
      m, t := InstallRuns(g, d0, s', k + 1);
      LC.RepeatMore(g, s, 1, s', m, t);
      n := 1 + m;
    }
  }

  lemma CopyStep(g: Geometry, d0: Disk, s: State)
    requires LC.CrashInv(g, d0, s) && s.phase.Copy? && |s.lh| < NBUF && Enabled(g, s, DiskWrite)
    ensures var s' := TakeWrite(g, s); var k := s.phase.k;
      if k < |s.lh| then s'.phase == Copy(k + 1) && s'.lh == s.lh && s'.durable == s.durable && s'.current == s.current
      else s'.phase == Install(0) && s'.durable == s.durable + s.current
  {
    hide LC.CrashInv, PutHeader;
    LC.CopyPins(g, d0, s);
    LC.WriteFacts(g, d0, s);
  }

  lemma {:induction false} CopyRuns(g: Geometry, d0: Disk, s: State, k: nat) returns (n: nat, t: State)
    requires LC.CrashInv(g, d0, s) && s.phase == Copy(k) && |s.lh| < NBUF
    ensures Exec(g, s, LC.Repeat(n)) == Some(t) && t.phase == Done && t.durable == s.durable + s.current
    decreases |s.lh| - k
  {
    hide LC.CrashInv, Exec, TakeWrite, Enabled, Pinned;
    LC.CanWrite(g, d0, s);
    CopyStep(g, d0, s);
    LC.WriteKeeps(g, d0, s);
    LC.StartRun(g, s);
    LC.RepeatOne(g, s, 0, s);
    var s', m := TakeWrite(g, s), 0;
    if k < |s.lh| {
      m, t := CopyRuns(g, d0, s', k + 1);
    } else {
      m, t := InstallRuns(g, d0, s', 0);
    }
    LC.RepeatMore(g, s, 1, s', m, t);
    n := 1 + m;
  }

  lemma {:induction false} StuckRuns(g: Geometry, s: State, n: nat)
    requires s.phase == Copy(0) && |s.cache| >= NBUF && Exec(g, s, LC.Repeat(n)).Some?
    ensures var t := Exec(g, s, LC.Repeat(n)).value; t.phase in {Copy(0), NoBuffers} && t.cache == s.cache
  {
    if n > 0 {
      LC.LastWrite(g, s, n, Exec(g, s, LC.Repeat(n)).value);
      hide Exec, LC.Repeat;
      StuckRuns(g, s, n - 1);
    }
  }

  /** In every run a group is committed by the writes of its end_op exactly when it has fewer than NBUF blocks. */
  lemma GroupCommitsIff(g: Geometry, s0: State, steps: seq<Step>)
    requires Init(g, s0) && LC.RoomyLog(g, s0.disk) && Exec(g, s0, steps).Some?
    requires Exec(g, s0, steps).value.phase == Copy(0)
    ensures var s := Exec(g, s0, steps).value; Commits(g, s) <==> |s.lh| < NBUF
  {
    var s := Exec(g, s0, steps).value;
    assert Reached(g, s0, s);
    ReachedPins(g, s0, s);
    if |s.lh| < NBUF {
      LC.CrashInvAlways(g, s0, steps);
      var n, t := CopyRuns(g, s0.disk, s, 0);
    } else {
      hide Exec;
      forall n | Exec(g, s, LC.Repeat(n)).Some?
        ensures Exec(g, s, LC.Repeat(n)).value.phase != Done
      {
        StuckRuns(g, s, n);
      }
    }
  }

  /** Three operations fill the header: a log with a block to spare, or a race in one of LOGSIZE blocks. */
  lemma LoadFull(g: Geometry, s0: State, h: seq<nat>, data: Block) returns (s: State)
    requires Init(g, s0) && HomeList(g, s0.disk, h) && g.size >= LOGSIZE
    ensures Reached(g, s0, s) && Filled(s0, s, h, LOGSIZE, data) && Frugal(s)
    ensures forall i :: 0 <= i < 3 ==> s.ops[i].active && !s.ops[i].inCall
  {
    if g.size == LOGSIZE {
      s := Race(g, s0, h, data);
    } else {
      s := LoadStart(g, s0, h, data);
      s := Load(g, s0, h, 0, data, s, 0, MAXOPBLOCKS);
      s := Load(g, s0, h, MAXOPBLOCKS, data, s, 1, MAXOPBLOCKS);
      s := Load(g, s0, h, 2 * MAXOPBLOCKS, data, s, 2, MAXOPBLOCKS);
    }
  }

  /** However large the log, one call beyond MAXOPBLOCKS can panic, even one that absorption would have made free: the
      guard does not look whether the block is in the log already. */
  lemma AbsorbedCallPanics(g: Geometry, s0: State, h: seq<nat>) returns (s: State)
    requires Init(g, s0) && HomeList(g, s0.disk, h) && g.size >= LOGSIZE
    ensures Reached(g, s0, s) && CallsAtMost(s, MAXOPBLOCKS + 1) && s.phase == Panicked
    ensures forall i :: 0 <= i < |s.ops| ==> s.ops[i].appends <= MAXOPBLOCKS
  {
    s := LoadFull(g, s0, h, ZeroBlock());
    Extend(g, s0, s, Check(2));
    s := AfterCheck(g, s, 2);
    var steps :| Exec(g, s0, steps) == Some(s);
    ReservedAlways(g, s0, steps);
  }

  /** When "too big a transaction" can happen to operations that make at most c calls of log_write each: exactly when
      the log, header included, has at most LOGSIZE blocks, or c is more than MAXOPBLOCKS. */
  lemma PanicIff(g: Geometry, s0: State, h: seq<nat>, c: nat)
    requires Init(g, s0) && HomeList(g, s0.disk, h) && c >= MAXOPBLOCKS
    ensures g.size <= LOGSIZE || c > MAXOPBLOCKS <==>
      exists s :: Reached(g, s0, s) && CallsAtMost(s, c) && s.phase == Panicked
  {
    if g.size <= LOGSIZE {
      var s := SmallLogPanics(g, s0, h);
    } else if c > MAXOPBLOCKS {
      var s := AbsorbedCallPanics(g, s0, h);
    } else {
      forall s | Reached(g, s0, s) && CallsAtMost(s, c)
        ensures s.phase != Panicked
      {
        var steps :| Exec(g, s0, steps) == Some(s);
        NoPanic(g, s0, steps);
      }
    }
  }

  /** However large the log, operations that keep to MAXOPBLOCKS calls can pin every buffer, and their commit panics. */
  lemma FullGroupPanics(g: Geometry, s0: State, h: seq<nat>) returns (s: State)
    requires Init(g, s0) && HomeList(g, s0.disk, h) && g.size >= LOGSIZE && g.start + g.size < |s0.disk|
    ensures Reached(g, s0, s) && Frugal(s) && s.phase == NoBuffers
  {
    s := LoadFull(g, s0, h, ZeroBlock());
    s := EndAll(g, s0, h, LOGSIZE, ZeroBlock(), s);
    ReachedPins(g, s0, s);
    Extend(g, s0, s, DiskWrite);
    s := TakeWrite(g, s);
  }

  /** With a block to spare, the only panic is that of a commit of NBUF blocks. */
  lemma OnlyFullGroupsPanic(g: Geometry, s0: State, steps: seq<Step>)
    requires Init(g, s0) && g.size >= LOGSIZE + 1
    requires Exec(g, s0, steps).Some? && Frugal(Exec(g, s0, steps).value)
    ensures var s := Exec(g, s0, steps).value; s.phase != Panicked && (s.phase == NoBuffers ==> |s.lh| == NBUF)
  {
    NoPanic(g, s0, steps);
    FullWhenStuck(g, s0, steps);
  }

  lemma {:induction false} FullWhenStuck(g: Geometry, s0: State, steps: seq<Step>)
    requires Init(g, s0) && Exec(g, s0, steps).Some?
    ensures var s := Exec(g, s0, steps).value; s.phase == NoBuffers ==> |s.lh| == NBUF
  {
    if steps != [] {
      var n := |steps| - 1;
      FullWhenStuck(g, s0, steps[..n]);
      if steps[n] == DiskWrite {
        BuffersRunOut(g, s0, steps[..n]);
      }
    }
  }

  const MKFS_LOG: Geometry := Geometry(2, LOGSIZE)     // logstart and nlog in the superblock that mkfs writes

  /** The image that mkfs writes is a clean boot state. Its log is atomic in every run, but operations that keep to
      MAXOPBLOCKS calls can run into either panic. */
  lemma MkfsLogPanics(d: Disk)
    requires |d| == FSSIZE && d[2] == ZeroBlock()
    ensures var s0 := State(d, [], map[], 0, [], Idle, [], [], []);
      && Init(MKFS_LOG, s0)
      && (forall run, reboot :: Atomic(MKFS_LOG, s0, run, reboot))
      && (exists s :: Reached(MKFS_LOG, s0, s) && Frugal(s) && s.phase == Panicked)
      && (exists s :: Reached(MKFS_LOG, s0, s) && Frugal(s) && s.phase == NoBuffers)
  {
    var s0, h := State(d, [], map[], 0, [], Idle, [], [], []), seq(LOGSIZE, i => 100 + i);
    ZeroWord(0);
    assert HomeList(MKFS_LOG, d, h);
    hide HomeList, Atomic, Reached, Frugal;
    AtomicIffRoomy(MKFS_LOG, s0, h);
    var p := SmallLogPanics(MKFS_LOG, s0, h);
    var s := FullGroupPanics(MKFS_LOG, s0, h);
  }
}
