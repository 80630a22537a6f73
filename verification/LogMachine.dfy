/** The redo log as a transition system.

    One step is one critical section of `begin_op`, `log_write` or `end_op`, one disk write of `commit`
    or `recover_from_log`, or a crash. A run is any sequence of enabled steps, so it covers every
    interleaving of operations and a crash after every single block write, also during recovery. */
module LogMachine {
  import opened Blocks
  import opened Options
  import opened Params

  /** Where the log lies: the header block at `start`, then the log data blocks. */
  datatype Geometry = Geometry(start: nat, size: nat)

  /** A block of the file system proper: on the disk and outside the log. */
  predicate Home(g: Geometry, d: Disk, b: nat)
  {
    b < |d| && !(g.start <= b < g.start + g.size)
  }

  // ---------- The header block ----------

  function HeaderCount(b: Block): (n: nat)
  {
    GetWord(b, 0)
  }

  /** The block numbers recorded in a header block. */
  function HeaderBlocks(b: Block): (lh: seq<nat>)
    requires HeaderCount(b) <= LOGSIZE
  {
    seq(HeaderCount(b), i requires 0 <= i < HeaderCount(b) => GetWord(b, 1 + i))
  }

  predicate Fits(lh: seq<nat>)
  {
    |lh| <= LOGSIZE && forall i :: 0 <= i < |lh| ==> lh[i] < UINT_LIMIT
  }

  function PutBlocks(b: Block, lh: seq<nat>, k: nat): (r: Block)
    requires Fits(lh) && k <= |lh|
  {
    if k == 0 then PutWord(b, 0, |lh|) else PutWord(PutBlocks(b, lh, k - 1), k, lh[k - 1])
  }

  /** The header block after `write_head`: count and block numbers overwritten, the rest stale. */
  function PutHeader(b: Block, lh: seq<nat>): (r: Block)
    requires Fits(lh)
  {
    PutBlocks(b, lh, |lh|)
  }

  lemma {:induction false} PutBlocksWords(b: Block, lh: seq<nat>, k: nat)
    requires Fits(lh) && k <= |lh|
    ensures HeaderCount(PutBlocks(b, lh, k)) == |lh|
    ensures forall i :: 0 <= i < k ==> GetWord(PutBlocks(b, lh, k), 1 + i) == lh[i]
  {
    if k == 0 {
      GetPutWord(b, 0, |lh|, 0);
    } else {
      PutBlocksWords(b, lh, k - 1);
      var prev := PutBlocks(b, lh, k - 1);
      GetPutWord(prev, k, lh[k - 1], 0);
      forall i | 0 <= i < k
        ensures GetWord(PutBlocks(b, lh, k), 1 + i) == lh[i]
      {
        GetPutWord(prev, k, lh[k - 1], 1 + i);
      }
    }
  }

  /** What `write_head` stores is what `read_head` loads. */
  lemma HeaderRoundTrip(b: Block, lh: seq<nat>)
    requires Fits(lh)
    ensures HeaderCount(PutHeader(b, lh)) == |lh|
    ensures HeaderBlocks(PutHeader(b, lh)) == lh
  {
    PutBlocksWords(b, lh, |lh|);
  }

  // ---------- States and steps ----------

  /** One file-system operation between `begin_op` and `end_op`.
      `calls` counts its `log_write` calls, `appends` those that took a new log slot;
      `inCall` is set between the unlocked size check and the locked part of `log_write`. */
  datatype Op = Op(active: bool, inCall: bool, calls: nat, appends: nat)

  /** One `log_write`: operation `op` made `data` the content of `blockno`. */
  datatype Write = Write(op: nat, blockno: nat, data: Block)

  datatype Phase =
    | Idle                // not committing
    | Copy(k: nat)        // write_log has written k log blocks
    | Install(k: nat)     // header on disk; install_trans has written k home blocks
    | Done                // log cleared, `committing` still set
    | Down                // crashed
    | Recover(k: nat)     // read_head done; install_trans has written k home blocks
    | Panicked            // log_write: "too big a transaction"
    | NoBuffers           // bget: "no buffers"

  /** `lh` is log.lh.block[..log.lh.n]; `cache` the pinned B_DIRTY buffers; `ops` every operation ever begun.
      `durable`, `current` and `lost` record every log_write ever made: in a committed group, in the open
      group, or dropped by a crash before its group committed. */
  datatype State = State(disk: Disk, lh: seq<nat>, cache: map<nat, Block>, outstanding: nat, ops: seq<Op>,
                         phase: Phase, durable: seq<Write>, current: seq<Write>, lost: seq<Write>)

  datatype Step =
    | BeginOp
    | Check(op: nat)                                   // log_write's unlocked size check
    | LogWrite(op: nat, blockno: nat, data: Block)     // log_write's locked part
    | EndOp(op: nat)
    | DiskWrite                                        // next block write of commit or recovery
    | Finish                                           // end_op clears `committing`
    | Crash
    | ReadHead                                         // reboot: recover_from_log reads the header

  /** `committing` is set; it stays set when the commit panics. */
  predicate Committing(p: Phase)
  {
    p.Copy? || p.Install? || p.Done? || p.NoBuffers?
  }

  predicate IsActive(s: State, op: nat)
  {
    s.phase == Idle && op < |s.ops| && s.ops[op].active
  }

  predicate Enabled(g: Geometry, s: State, step: Step)
  {
    match step
    case BeginOp => s.phase == Idle && |s.lh| + (s.outstanding + 1) * MAXOPBLOCKS <= LOGSIZE
    case Check(op) => IsActive(s, op) && !s.ops[op].inCall
    case LogWrite(op, b, _) =>
      // an operation appends at most MAXOPBLOCKS blocks, all outside the log
      && IsActive(s, op) && s.ops[op].inCall && Home(g, s.disk, b)
      && (b !in s.lh ==> s.ops[op].appends < MAXOPBLOCKS)
    case EndOp(op) => IsActive(s, op) && !s.ops[op].inCall && s.outstanding > 0
    case DiskWrite =>
      && (s.phase.Copy? || s.phase.Install? || s.phase.Recover?)
      && Fits(s.lh) && s.phase.k <= |s.lh| && g.start < |s.disk|
      && (s.phase.k < |s.lh| ==> g.start + 1 + s.phase.k < |s.disk| && s.lh[s.phase.k] < |s.disk|)
    case Finish => s.phase == Done
    case Crash => true
    case ReadHead => s.phase == Down && g.start < |s.disk| && HeaderCount(s.disk[g.start]) <= LOGSIZE
  }

  /** The content `bread` returns: the pinned buffer if there is one, else the disk block. */
  function View(s: State, b: nat): (data: Block)
    requires b < |s.disk|
  {
    if b in s.cache then s.cache[b] else s.disk[b]
  }

  function AfterBegin(s: State): (s': State)
  {
    s.(outstanding := s.outstanding + 1, ops := s.ops + [Op(true, false, 0, 0)])
  }

  function AfterCheck(g: Geometry, s: State, op: nat): (s': State)
    requires op < |s.ops|
  {
    var s1 := s.(ops := s.ops[op := s.ops[op].(inCall := true, calls := s.ops[op].calls + 1)]);
    if |s.lh| >= LOGSIZE || |s.lh| >= g.size - 1 then s1.(phase := Panicked) else s1
  }

  function AfterLogWrite(s: State, op: nat, b: nat, data: Block): (s': State)
    requires op < |s.ops|
  {
    var o := s.ops[op].(inCall := false);
    s.(lh := if b in s.lh then s.lh else s.lh + [b],
       cache := s.cache[b := data],
       ops := s.ops[op := if b in s.lh then o else o.(appends := o.appends + 1)],
       current := s.current + [Write(op, b, data)])
  }

  function AfterEnd(s: State, op: nat): (s': State)
    requires op < |s.ops| && s.outstanding > 0
  {
    var s1 := s.(outstanding := s.outstanding - 1, ops := s.ops[op := s.ops[op].(active := false)]);
    if s1.outstanding > 0 then s1 else s1.(phase := if |s.lh| > 0 then Copy(0) else Done)
  }

  function AfterCrash(s: State): (s': State)
  {
    s.(lh := [], cache := map[], outstanding := 0, ops := Stopped(s.ops), phase := Down,
       current := [], lost := s.lost + s.current)
  }

  /** write_log copies one block. */
  function AfterCopy(g: Geometry, s: State, k: nat): (s': State)
    requires k < |s.lh| && s.lh[k] < |s.disk| && g.start + 1 + k < |s.disk|
  {
    s.(disk := s.disk[g.start + 1 + k := View(s, s.lh[k])], phase := Copy(k + 1))
  }

  /** write_head with n > 0: the transaction commits here. */
  function AfterCommit(g: Geometry, s: State): (s': State)
    requires g.start < |s.disk| && Fits(s.lh)
  {
    s.(disk := s.disk[g.start := PutHeader(s.disk[g.start], s.lh)], phase := Install(0),
       durable := s.durable + s.current, current := [])
  }

  /** install_trans copies one block home, which clears B_DIRTY of its buffer. */
  function AfterInstall(g: Geometry, s: State, k: nat, next: Phase): (s': State)
    requires k < |s.lh| && s.lh[k] < |s.disk| && g.start + 1 + k < |s.disk|
  {
    s.(disk := s.disk[s.lh[k] := s.disk[g.start + 1 + k]], cache := s.cache - {s.lh[k]}, phase := next)
  }

  /** write_head with n = 0. */
  function AfterClear(g: Geometry, s: State, next: Phase): (s': State)
    requires g.start < |s.disk|
  {
    s.(disk := s.disk[g.start := PutHeader(s.disk[g.start], [])], lh := [], phase := next)
  }

  function TakeStep(g: Geometry, s: State, step: Step): (s': State)
    requires Enabled(g, s, step)
  {
    match step
    case BeginOp => AfterBegin(s)
    case Check(op) => AfterCheck(g, s, op)
    case LogWrite(op, b, data) => AfterLogWrite(s, op, b, data)
    case EndOp(op) => AfterEnd(s, op)
    case DiskWrite => TakeWrite(g, s)
    case Finish => s.(phase := Idle)
    case Crash => AfterCrash(s)
    case ReadHead => s.(lh := HeaderBlocks(s.disk[g.start]), phase := Recover(0))
  }

  /** The next single-block disk write of commit() or recover_from_log(). The block it writes is not pinned, so bget
      needs a buffer that is not: it panics when all NBUF are. */
  function TakeWrite(g: Geometry, s: State): (s': State)
    requires Enabled(g, s, DiskWrite)
  {
    if |s.cache| >= NBUF then s.(phase := NoBuffers) else WriteBlock(g, s)
  }

  function WriteBlock(g: Geometry, s: State): (s': State)
    requires Enabled(g, s, DiskWrite)
  {
    match s.phase
    case Copy(k) => if k < |s.lh| then AfterCopy(g, s, k) else AfterCommit(g, s)
    case Install(k) => if k < |s.lh| then AfterInstall(g, s, k, Install(k + 1)) else AfterClear(g, s, Done)
    case Recover(k) => if k < |s.lh| then AfterInstall(g, s, k, Recover(k + 1)) else AfterClear(g, s, Idle)
  }

  function Stopped(ops: seq<Op>): (r: seq<Op>)
  {
    seq(|ops|, i requires 0 <= i < |ops| => ops[i].(active := false, inCall := false))
  }

  /** The state reached from `s` by a sequence of steps, or None when some step is not enabled. */
  function Exec(g: Geometry, s: State, steps: seq<Step>): (r: Option<State>)
  {
    if steps == [] then Some(s) else
      match Exec(g, s, steps[..|steps| - 1])
      case None => None
      case Some(m) =>
        if Enabled(g, m, steps[|steps| - 1]) then Some(TakeStep(g, m, steps[|steps| - 1])) else None
  }

  lemma ExecAppend(g: Geometry, s: State, steps: seq<Step>, step: Step)
    requires Exec(g, s, steps).Some?
    ensures Enabled(g, Exec(g, s, steps).value, step) ==>
      Exec(g, s, steps + [step]) == Some(TakeStep(g, Exec(g, s, steps).value, step))
  {
    assert (steps + [step])[..|steps|] == steps;
  }

  /** A machine that has just booted cleanly: empty log header, nothing in memory. */
  predicate Init(g: Geometry, s: State)
  {
    && g.start < |s.disk| <= UINT_LIMIT
    && HeaderCount(s.disk[g.start]) == 0
    && s == State(s.disk, [], map[], 0, [], Idle, [], [], [])
  }

  // ---------- Reservation ----------

  function Active(o: Op): (n: nat)
  {
    if o.active then 1 else 0
  }

  function Unspent(o: Op): (n: int)
  {
    if o.active then MAXOPBLOCKS - o.appends else 0
  }

  function Count(ops: seq<Op>): (n: nat)
  {
    if ops == [] then 0 else Count(ops[..|ops| - 1]) + Active(ops[|ops| - 1])
  }

  /** The log slots outstanding operations may still take. */
  function Budget(ops: seq<Op>): (n: int)
  {
    if ops == [] then 0 else Budget(ops[..|ops| - 1]) + Unspent(ops[|ops| - 1])
  }

  lemma SumsAppend(ops: seq<Op>, o: Op)
    ensures Count(ops + [o]) == Count(ops) + Active(o)
    ensures Budget(ops + [o]) == Budget(ops) + Unspent(o)
  {
    assert (ops + [o])[..|ops|] == ops;
  }

  lemma {:induction false} SumsUpdate(ops: seq<Op>, i: nat, o: Op)
    requires i < |ops|
    ensures Count(ops[i := o]) == Count(ops) - Active(ops[i]) + Active(o)
    ensures Budget(ops[i := o]) == Budget(ops) - Unspent(ops[i]) + Unspent(o)
  {
    var n := |ops| - 1;
    if i == n {
      assert ops[i := o][..n] == ops[..n];
    } else {
      assert ops[i := o][..n] == ops[..n][i := o];
      SumsUpdate(ops[..n], i, o);
    }
  }

  lemma {:induction false} SumsBound(ops: seq<Op>)
    requires forall i :: 0 <= i < |ops| ==> ops[i].appends <= MAXOPBLOCKS
    ensures 0 <= Budget(ops) <= Count(ops) * MAXOPBLOCKS
    ensures forall i :: 0 <= i < |ops| ==> Unspent(ops[i]) <= Budget(ops)
    ensures Count(ops) == 0 ==> forall i :: 0 <= i < |ops| ==> !ops[i].active
  {
    if ops != [] {
      SumsBound(ops[..|ops| - 1]);
      assert forall i :: 0 <= i < |ops| - 1 ==> ops[i] == ops[..|ops| - 1][i];
    }
  }

  lemma {:induction false} SumsStopped(ops: seq<Op>)
    ensures Count(Stopped(ops)) == 0 && Budget(Stopped(ops)) == 0
  {
    if ops != [] {
      SumsStopped(ops[..|ops| - 1]);
      assert Stopped(ops)[..|ops| - 1] == Stopped(ops[..|ops| - 1]);
    }
  }

  predicate Distinct(lh: seq<nat>)
  {
    forall i, j :: 0 <= i < j < |lh| ==> lh[i] != lh[j]
  }

  /** What every reachable state satisfies whatever the size of the log: reserved space is never
      oversubscribed, logged block numbers are distinct, and a commit runs with no operation outstanding. */
  ghost predicate Reserved(g: Geometry, s: State)
  {
    && s.outstanding == Count(s.ops)
    && (forall i :: 0 <= i < |s.ops| ==> s.ops[i].appends <= MAXOPBLOCKS && s.ops[i].appends <= s.ops[i].calls)
    && (forall i :: 0 <= i < |s.ops| && s.ops[i].inCall ==> s.ops[i].active && s.ops[i].appends < s.ops[i].calls)
    && |s.lh| + Budget(s.ops) <= LOGSIZE
    && (!s.phase.Recover? && s.phase != NoBuffers ==> Distinct(s.lh))
    && (s.phase != Idle && s.phase != Panicked ==> s.outstanding == 0)
  }

  lemma ReservedLogWrite(g: Geometry, s: State, op: nat, b: nat, data: Block)
    requires Reserved(g, s) && Enabled(g, s, Step.LogWrite(op, b, data))
    ensures Reserved(g, AfterLogWrite(s, op, b, data))
  {
    SumsUpdate(s.ops, op, AfterLogWrite(s, op, b, data).ops[op]);
  }

  lemma ReservedEnd(g: Geometry, s: State, op: nat)
    requires Reserved(g, s) && Enabled(g, s, EndOp(op))
    ensures Reserved(g, AfterEnd(s, op))
  {
    SumsUpdate(s.ops, op, AfterEnd(s, op).ops[op]);
  }

  lemma ReservedCheck(g: Geometry, s: State, op: nat)
    requires Reserved(g, s) && Enabled(g, s, Check(op))
    ensures Reserved(g, AfterCheck(g, s, op))
  {
    SumsUpdate(s.ops, op, AfterCheck(g, s, op).ops[op]);
  }

  lemma ReservedBegin(g: Geometry, s: State)
    requires Reserved(g, s) && Enabled(g, s, BeginOp)
    ensures Reserved(g, AfterBegin(s))
  {
    SumsBound(s.ops);
    SumsAppend(s.ops, Op(true, false, 0, 0));
  }

  lemma ReservedWrite(g: Geometry, s: State)
    requires Reserved(g, s) && Enabled(g, s, DiskWrite)
    ensures Reserved(g, TakeWrite(g, s))
  {
    hide PutHeader, Count, Budget, Home;
    SumsBound(s.ops);
  }

  lemma ReservedReadHead(g: Geometry, s: State)
    requires Reserved(g, s) && Enabled(g, s, ReadHead)
    ensures Reserved(g, TakeStep(g, s, ReadHead))
  {
    SumsBound(s.ops);
  }

  lemma ReservedStep(g: Geometry, s: State, step: Step)
    requires Reserved(g, s) && Enabled(g, s, step)
    ensures Reserved(g, TakeStep(g, s, step))
  {
    match step
    case BeginOp => ReservedBegin(g, s);
    case Check(op) => ReservedCheck(g, s, op);
    case LogWrite(op, b, data) => ReservedLogWrite(g, s, op, b, data);
    case EndOp(op) => ReservedEnd(g, s, op);
    case DiskWrite => ReservedWrite(g, s);
    case Finish =>
    case Crash => SumsStopped(s.ops);
    case ReadHead => ReservedReadHead(g, s);
  }

  lemma {:induction false} ReservedAlways(g: Geometry, s0: State, steps: seq<Step>)
    requires Init(g, s0) && Exec(g, s0, steps).Some?
    ensures Reserved(g, Exec(g, s0, steps).value)
  {
    if steps != [] {
      var n := |steps| - 1;
      ReservedAlways(g, s0, steps[..n]);
      ReservedStep(g, Exec(g, s0, steps[..n]).value, steps[n]);
    }
  }

  /** The log is empty whenever nobody is in it. */
  predicate Quiet(s: State)
  {
    s.phase == Done || (s.phase == Idle && s.outstanding == 0) ==> s.lh == []
  }

  lemma QuietStep(g: Geometry, s: State, step: Step)
    requires Quiet(s) && Reserved(g, s) && Enabled(g, s, step)
    ensures Quiet(TakeStep(g, s, step))
  {
    SumsBound(s.ops);
    hide PutHeader, HeaderBlocks, HeaderCount, Home, Budget, Count;
  }

  lemma {:induction false} QuietAlways(g: Geometry, s0: State, steps: seq<Step>)
    requires Init(g, s0) && Exec(g, s0, steps).Some?
    ensures Quiet(Exec(g, s0, steps).value)
  {
    if steps != [] {
      var n := |steps| - 1;
      QuietAlways(g, s0, steps[..n]);
      ReservedAlways(g, s0, steps[..n]);
      QuietStep(g, Exec(g, s0, steps[..n]).value, steps[n]);
    }
  }

  /** begin_op admits an operation exactly when no commit runs and the log has room for it: the blocks logged, and ten
      for each operation in the log and for the new one, are at most 30. So with nothing logged it is admitted exactly
      as one of three, and it never waits when nobody is in the log. */
  lemma AdmittedIffRoom(g: Geometry, s0: State, steps: seq<Step>)
    requires Init(g, s0) && Exec(g, s0, steps).Some?
    ensures var s := Exec(g, s0, steps).value;
      && (Enabled(g, s, BeginOp) <==> s.phase == Idle && |s.lh| + 10 * Count(s.ops) + 10 <= 30)
      && (s.phase == Idle && s.lh == [] ==> (Enabled(g, s, BeginOp) <==> Count(s.ops) < 3))
      && (s.phase == Idle && (forall i :: 0 <= i < |s.ops| ==> !s.ops[i].active) ==> Enabled(g, s, BeginOp))
  {
    ReservedAlways(g, s0, steps);
    QuietAlways(g, s0, steps);
    hide Exec;
    var s := Exec(g, s0, steps).value;
    if forall i :: 0 <= i < |s.ops| ==> !s.ops[i].active {
      NoneActive(s.ops);
    }
  }

  lemma {:induction false} NoneActive(ops: seq<Op>)
    requires forall i :: 0 <= i < |ops| ==> !ops[i].active
    ensures Count(ops) == 0
  {
    if ops != [] {
      NoneActive(ops[..|ops| - 1]);
    }
  }

  // ---------- Pinned buffers ----------

  /** The pinned buffers are exactly the logged blocks until the group is committed, and from then on those of the
      blocks that are not installed yet. */
  ghost predicate Pinned(s: State)
  {
    match s.phase
    case Install(k) => k <= |s.lh| < NBUF && forall b :: b in s.cache ==> b in s.lh[k..]
    case Done => s.lh == [] && s.cache == map[]
    case Down => s.lh == [] && s.cache == map[]
    case Recover(_) => s.cache == map[]
    case _ => (forall b :: b in s.cache <==> b in s.lh) && (s.phase.Copy? && s.phase.k > 0 ==> |s.lh| < NBUF)
  }

  lemma {:induction false} DistinctSize(lh: seq<nat>, keys: set<nat>)
    requires Distinct(lh) && forall b :: b in keys <==> b in lh
    ensures |keys| == |lh|
  {
    if lh != [] {
      var n := |lh| - 1;
      assert lh == lh[..n] + [lh[n]];
      DistinctSize(lh[..n], keys - {lh[n]});
    }
  }

  lemma {:induction false} SubsetSize(lh: seq<nat>, keys: set<nat>)
    requires forall b :: b in keys ==> b in lh
    ensures |keys| <= |lh|
  {
    if lh != [] {
      var n := |lh| - 1;
      assert lh == lh[..n] + [lh[n]];
      SubsetSize(lh[..n], keys - {lh[n]});
    }
  }

  /** Before the commit there are as many pinned buffers as logged blocks. */
  lemma PinnedCount(s: State)
    requires Pinned(s) && Distinct(s.lh) && (s.phase == Idle || s.phase.Copy?)
    ensures |s.cache| == |s.lh|
  {
    DistinctSize(s.lh, s.cache.Keys);
  }

  /** Afterwards a buffer is always left. */
  lemma PinnedFew(s: State)
    requires Pinned(s) && (s.phase.Install? || s.phase.Recover?)
    ensures |s.cache| < NBUF
  {
    if s.phase.Install? {
      assert forall b :: b in s.cache.Keys ==> b in s.lh;
      SubsetSize(s.lh, s.cache.Keys);
    }
  }

  lemma DropFirst(lh: seq<nat>, k: nat, keys: set<nat>)
    requires k < |lh| && forall b :: b in keys ==> b in lh[k..]
    ensures forall b :: b in keys - {lh[k]} ==> b in lh[k + 1..]
  {
    assert lh[k..] == [lh[k]] + lh[k + 1..];
  }

  lemma PinnedInstall(g: Geometry, s: State, k: nat)
    requires Pinned(s) && s.phase == Install(k) && k < |s.lh| && Enabled(g, s, DiskWrite)
    ensures Pinned(AfterInstall(g, s, k, Install(k + 1)))
  {
    hide Enabled;
    DropFirst(s.lh, k, s.cache.Keys);
  }

  lemma PinnedClear(g: Geometry, s: State)
    requires Pinned(s) && s.phase == Install(|s.lh|) && g.start < |s.disk|
    ensures Pinned(AfterClear(g, s, Done))
  {
    assert s.lh[|s.lh|..] == [];
    assert s.cache == map[];
  }

  lemma PinnedCopy(g: Geometry, s: State)
    requires Pinned(s) && s.phase.Copy? && Distinct(s.lh) && Enabled(g, s, DiskWrite)
    ensures Pinned(TakeWrite(g, s))
    ensures |s.cache| >= NBUF <==> s.phase == Copy(0) && |s.lh| >= NBUF
  {
    PinnedCount(s);
    hide PutHeader, Distinct;
    assert s.lh[0..] == s.lh;
  }

  lemma PinnedRest(g: Geometry, s: State)
    requires Pinned(s) && !s.phase.Copy? && Enabled(g, s, DiskWrite)
    ensures Pinned(TakeWrite(g, s)) && |s.cache| < NBUF
  {
    PinnedFew(s);
    hide Pinned;
    if s.phase.Install? {
      hide PutHeader;
      if s.phase.k < |s.lh| {
        PinnedInstall(g, s, s.phase.k);
      } else {
        PinnedClear(g, s);
      }
    } else {
      PinnedRecover(g, s);
    }
  }

  lemma PinnedRecover(g: Geometry, s: State)
    requires Pinned(s) && s.phase.Recover? && Enabled(g, s, DiskWrite) && |s.cache| < NBUF
    ensures Pinned(TakeWrite(g, s))
  {
    hide PutHeader;
  }

  /** A write of commit or recovery finds a buffer unless write_log is to copy NBUF blocks. */
  lemma PinnedWrite(g: Geometry, s: State)
    requires Pinned(s) && (s.phase.Copy? ==> Distinct(s.lh)) && Enabled(g, s, DiskWrite)
    ensures Pinned(TakeWrite(g, s))
    ensures |s.cache| >= NBUF <==> s.phase == Copy(0) && |s.lh| >= NBUF
  {
    hide Pinned, Distinct, TakeWrite;
    if s.phase.Copy? {
      PinnedCopy(g, s);
    } else {
      PinnedRest(g, s);
    }
  }

  lemma PinnedLogWrite(s: State, op: nat, b: nat, data: Block)
    requires Pinned(s) && op < |s.ops| && s.phase == Idle
    ensures Pinned(AfterLogWrite(s, op, b, data))
  {
    var s' := AfterLogWrite(s, op, b, data);
    forall c
      ensures c in s'.cache <==> c in s'.lh
    {
      assert c in s'.lh <==> c == b || c in s.lh;
    }
  }

  lemma PinnedEnd(s: State, op: nat)
    requires Pinned(s) && op < |s.ops| && s.phase == Idle && s.outstanding > 0
    ensures Pinned(AfterEnd(s, op))
  {
    assert s.lh == [] ==> s.cache == map[];
  }

  lemma PinnedStep(g: Geometry, s: State, step: Step)
    requires Pinned(s) && (s.phase.Copy? ==> Distinct(s.lh)) && Enabled(g, s, step)
    ensures Pinned(TakeStep(g, s, step))
  {
    match step
    case LogWrite(op, b, data) => PinnedLogWrite(s, op, b, data);
    case EndOp(op) => PinnedEnd(s, op);
    case DiskWrite => PinnedWrite(g, s);
    case _ =>
  }

  lemma {:induction false} PinnedAlways(g: Geometry, s0: State, steps: seq<Step>)
    requires Init(g, s0) && Exec(g, s0, steps).Some?
    ensures Pinned(Exec(g, s0, steps).value)
  {
    if steps != [] {
      var n := |steps| - 1;
      PinnedAlways(g, s0, steps[..n]);
      ReservedAlways(g, s0, steps[..n]);
      hide Pinned, Enabled, Distinct;
      PinnedStep(g, Exec(g, s0, steps[..n]).value, steps[n]);
    }
  }
}
