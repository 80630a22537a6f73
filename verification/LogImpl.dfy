/** The log as the kernel runs it: fields updated in place, loops that copy one block at a time.
    Every method is proved to take exactly the steps of LogMachine, so the theorems about runs are
    theorems about this code. */
module LogImpl {
  import opened Blocks
  import opened LogMachine
  import LC = LogCrash
  import opened Options
  import opened Params

  class Log {
    const g: Geometry
    var disk: seq<Block>              // the device
    var cache: map<nat, Block>        // the pinned B_DIRTY buffers
    var n: nat                        // log.lh.n
    const block: array<nat>           // log.lh.block
    var outstanding: nat
    var committing: bool

    ghost var model: State

    ghost predicate Valid()
      reads this, block
    {
      && block.Length == LOGSIZE && n <= LOGSIZE
      && model.disk == disk && model.cache == cache
      && model.lh == block[..n] && model.outstanding == outstanding
      && (committing <==> Committing(model.phase))
    }

    /** The machine's invariants, which make every step of commit and recovery possible. */
    ghost predicate Sound(d0: Disk)
      reads this, block
    {
      Valid() && LC.CrashInv(g, d0, model)
    }

    /** initlog on the disk that a crash left: recovery brings back the committed content before anything else runs. */
    constructor (g: Geometry, image: seq<Block>, ghost d0: Disk, ghost down: State)
      requires down.phase == Down && down.disk == image && down.outstanding == 0 && LC.CrashInv(g, d0, down)
      ensures Sound(d0) && fresh(block) && this.g == g
      ensures model.phase == Idle && n == 0 && outstanding == 0 && model.durable == down.durable
      ensures LC.HomeBlocksEqual(g, disk, LC.Replay(d0, down.durable))
      ensures exists k :: Exec(g, down, [Step.ReadHead] + LC.Repeat(k)) == Some(model)
    {
      hide LC.CrashInv, LC.Replay, LC.HomeBlocksEqual, Exec;
      LC.DownMemory(g, d0, down);
      this.g, disk, cache, n, outstanding, committing := g, image, map[], 0, 0, false;
      block := new nat[LOGSIZE];
      model := down;
      new;
      assert block[..n] == [];
      RecoverFromLog(d0);
    }

    /** begin_op's critical section; `false` means the caller sleeps and tries again. */
    method BeginOp() returns (granted: bool)
      requires Valid() && (model.phase == Idle || Committing(model.phase))
      modifies this
      ensures Valid() && granted == Enabled(g, old(model), Step.BeginOp)
      ensures model == if granted then AfterBegin(old(model)) else old(model)
    {
      if committing {
        granted := false;
      } else if n + (outstanding + 1) * MAXOPBLOCKS > LOGSIZE {
        granted := false;
      } else {
        outstanding := outstanding + 1;
        model := AfterBegin(model);
        granted := true;
      }
    }

    /** The unlocked guard of log_write; true is the "too big a transaction" panic. */
    method Check(ghost op: nat) returns (tooBig: bool)
      requires Valid() && Enabled(g, model, Step.Check(op))
      modifies this`model
      ensures Valid() && op < |old(model).ops| && model == AfterCheck(g, old(model), op)
      ensures tooBig <==> model.phase == Panicked
    {
      tooBig := n >= LOGSIZE || n >= g.size - 1;
      model := AfterCheck(g, model, op);
    }

    /** The locked part of log_write: absorb or append. */
    method LogWrite(ghost op: nat, blockno: nat, data: Block)
      requires Valid() && Enabled(g, model, Step.LogWrite(op, blockno, data)) && Reserved(g, model)
      modifies this, block
      ensures Valid() && model == AfterLogWrite(old(model), op, blockno, data)
    {
      hide Reserved;
      ReservedLogWrite(g, model, op, blockno, data);
      LC.LogFits(g, AfterLogWrite(model, op, blockno, data));
      hide Enabled, Home;
      var i := 0;
      while i < n && block[i] != blockno
        invariant i <= n
        invariant forall j :: 0 <= j < i ==> block[j] != blockno
      {
        i := i + 1;
      }
      assert i < n ==> block[..n][i] == blockno;
      assert i == n <==> blockno !in model.lh;
      block[i] := blockno;
      if i == n {
        n := n + 1;
      }
      cache := cache[blockno := data];
      model := AfterLogWrite(model, op, blockno, data);
      assert block[..n] == model.lh;
    }

    /** read_head: load the header block. */
    method ReadHead()
      requires Valid() && Enabled(g, model, Step.ReadHead)
      modifies this, block
      ensures Valid() && model == TakeStep(g, old(model), Step.ReadHead)
    {
      var hb := disk[g.start];
      n := GetWord(hb, 0);
      for i := 0 to n
        modifies block
        invariant forall j :: 0 <= j < i ==> block[j] == GetWord(hb, 1 + j)
      {
        block[i] := GetWord(hb, 1 + i);
      }
      model := TakeStep(g, model, Step.ReadHead);
    }

    /** write_head: store the in-memory header, one block write. */
    method WriteHead()
      requires Valid() && g.start < |disk| && Fits(model.lh)
      modifies this`disk, this`model
      ensures model == old(model).(disk := disk) && Valid()
      ensures disk == old(disk)[g.start := PutHeader(old(disk)[g.start], model.lh)]
    {
      var hb := PutWord(disk[g.start], 0, n);
      for i := 0 to n
        invariant hb == PutBlocks(disk[g.start], model.lh, i)
      {
        assert model.lh[i] == block[i];
        hb := PutWord(hb, 1 + i, block[i]);
      }
      disk := disk[g.start := hb];
      model := model.(disk := disk);
    }

    /** write_log: copy the pinned blocks into the log; false is the "no buffers" panic of its first bread. */
    method WriteLog(ghost d0: Disk) returns (ok: bool)
      requires Sound(d0) && model.phase == Copy(0)
      modifies this`disk, this`model
      ensures Sound(d0) && ok == (n < NBUF) && model.durable == old(model).durable
      ensures model.current == old(model).current
      ensures ok ==> model.phase == Copy(n) && Exec(g, old(model), LC.Repeat(n)) == Some(model)
      ensures !ok ==> model.phase == NoBuffers && disk == old(disk) && Exec(g, old(model), LC.Repeat(1)) == Some(model)
    {
      hide LC.CrashInv, Exec, Enabled;
      LC.StartRun(g, model);
      LC.CopyPins(g, d0, model);
      for tail := 0 to n
        invariant Sound(d0) && model.phase == Copy(tail) && |cache| == n && (tail > 0 ==> n < NBUF)
        invariant model.durable == old(model).durable && model.current == old(model).current
        invariant Exec(g, old(model), LC.Repeat(tail)) == Some(model) && (tail == 0 ==> disk == old(disk))
      {
        LC.CanWrite(g, d0, model);
        LC.WriteKeeps(g, d0, model);
        LC.RepeatOne(g, old(model), tail, model);
        if |cache| >= NBUF {
          model := TakeWrite(g, model);
          return false;
        }
        WriteIndex(g, model);
        var from := if block[tail] in cache then cache[block[tail]] else disk[block[tail]];
        disk := disk[g.start + tail + 1 := from];
        model := TakeWrite(g, model);
      }
      ok := true;
    }

    /** install_trans: copy the log blocks home, after a commit or in recovery. */
    method InstallTrans(ghost d0: Disk)
      requires Sound(d0) && (model.phase == Install(0) || model.phase == Recover(0))
      modifies this`disk, this`cache, this`model
      ensures Sound(d0) && model.phase == if old(model).phase.Install? then Install(n) else Recover(n)
      ensures Exec(g, old(model), LC.Repeat(n)) == Some(model) && model.durable == old(model).durable
    {
      hide LC.CrashInv, Exec, Enabled, TakeWrite;
      LC.StartRun(g, model);
      for tail := 0 to n
        invariant Sound(d0) && model.phase == if old(model).phase.Install? then Install(tail) else Recover(tail)
        invariant model.durable == old(model).durable
        invariant Exec(g, old(model), LC.Repeat(tail)) == Some(model)
      {
        InstallNext(g, d0, model);
        LC.RepeatOne(g, old(model), tail, model);
        disk := disk[block[tail] := disk[g.start + tail + 1]];
        cache := cache - {block[tail]};
        model := TakeWrite(g, model);
      }
    }

    /** Setting lh.n to zero and writing the header, which ends commit and recovery. */
    method ClearLog(ghost d0: Disk, ghost next: Phase)
      requires Sound(d0)
      requires (model.phase == Install(n) && next == Done) || (model.phase == Recover(n) && next == Idle)
      modifies this`disk, this`n, this`model
      ensures Valid() && model == TakeWrite(g, old(model)) && Enabled(g, old(model), DiskWrite)
      ensures Sound(d0) && model.phase == next && n == 0 && model.current == []
      ensures model.durable == old(model).durable
    {
      hide LC.CrashInv;
      ghost var m := model;
      LC.CanWrite(g, d0, m);
      LC.HasBuffer(g, d0, m);
      LC.ClearKeeps(g, d0, m, next);
      LC.NoOpenGroup(g, d0, m);
      n := 0;
      model := m.(lh := []);
      WriteHead();
      model := AfterClear(g, m, next);
    }

    /** write_head with n > 0, the commit point. */
    method WriteCommit(ghost d0: Disk)
      requires Sound(d0) && model.phase == Copy(n) && n < NBUF
      modifies this`disk, this`model
      ensures Valid() && model == TakeWrite(g, old(model)) && Enabled(g, old(model), DiskWrite)
      ensures Sound(d0) && model.phase == Install(0)
      ensures model.durable == old(model).durable + old(model).current
    {
      hide LC.CrashInv;
      ghost var m := model;
      LC.CanWrite(g, d0, m);
      LC.CopyPins(g, d0, m);
      LC.CommitKeeps(g, d0, m);
      WriteHead();
      model := AfterCommit(g, m);
    }

    /** commit: the disk writes of one whole transaction. It panics exactly when the group has pinned every buffer. */
    method Commit(ghost d0: Disk) returns (ok: bool)
      requires Sound(d0) && model.phase == if n > 0 then Copy(0) else Done
      modifies this`disk, this`cache, this`n, this`model
      ensures Sound(d0) && ok == (old(n) < NBUF)
      ensures ok ==> model.phase == Done && n == 0 && model.current == []
      ensures ok ==> model.durable == old(model).durable + old(model).current
      ensures ok ==> Exec(g, old(model), LC.Repeat(if old(n) > 0 then 2 * old(n) + 2 else 0)) == Some(model)
      ensures !ok ==> model.phase == NoBuffers && disk == old(disk) && model.durable == old(model).durable
      ensures !ok ==> Exec(g, old(model), LC.Repeat(1)) == Some(model)
    {
      hide LC.CrashInv, Exec, TakeWrite, Enabled;
      ghost var m0, k := model, n;
      LC.StartRun(g, m0);
      ok := true;
      if n > 0 {
        ok := WriteLog(d0);
        if !ok {
          return;
        }
        ghost var m1 := model;
        WriteCommit(d0);
        LC.RepeatOne(g, m0, k, m1);
        ghost var m2 := model;
        InstallTrans(d0);
        ghost var m3 := model;
        LC.RepeatMore(g, m0, k + 1, m2, k, m3);
        ClearLog(d0, Done);
        LC.RepeatOne(g, m0, 2 * k + 1, m3);
      } else {
        LC.NothingOpen(g, d0, m0);
      }
    }

    /** end_op: the last operation out commits the group and leaves every write of it in place on disk, unless the group
        has pinned every buffer. */
    method EndOp(ghost d0: Disk, ghost op: nat) returns (ok: bool)
      requires Sound(d0) && Enabled(g, model, Step.EndOp(op))
      modifies this
      ensures Sound(d0) && ok == (old(outstanding) > 1 || old(n) < NBUF)
      ensures old(outstanding) > 1 ==>
        op < |old(model).ops| && old(model).outstanding > 0 && model == AfterEnd(old(model), op)
      ensures old(outstanding) == 1 && ok ==>
        && model.phase == Idle && model.current == []
        && model.durable == old(model).durable + old(model).current
        && LC.HomeBlocksEqual(g, disk, LC.Replay(d0, model.durable))
      ensures !ok ==> model.phase == NoBuffers && disk == old(disk) && model.durable == old(model).durable
    {
      hide LC.CrashInv, Exec, LC.HomeBlocksEqual, LC.Replay;
      LC.EndKeeps(g, d0, model, op);
      outstanding := outstanding - 1;
      model := AfterEnd(model, op);
      ok := true;
      if outstanding == 0 {
        committing := true;
        ok := Commit(d0);
        if !ok {
          return;
        }
        committing := false;
        LC.FinishKeeps(g, d0, model);
        model := model.(phase := Idle);
        LC.IdleContent(g, d0, model);
      }
    }

    /** recover_from_log: it ends with the committed content in place, and takes the machine's steps. */
    method RecoverFromLog(ghost d0: Disk)
      requires Sound(d0) && model.phase == Down && outstanding == 0
      modifies this, block
      ensures Sound(d0) && model.phase == Idle && n == 0 && outstanding == 0 && model.durable == old(model).durable
      ensures LC.HomeBlocksEqual(g, disk, LC.Replay(d0, old(model).durable))
      ensures exists k :: Exec(g, old(model), [Step.ReadHead] + LC.Repeat(k)) == Some(model)
    {
      hide LC.CrashInv, Exec, TakeWrite, Enabled;
      ghost var m0 := model;
      LC.CanRead(g, d0, m0);
      LC.ReadHeadKeeps(g, d0, m0);
      ReadHead();
      ghost var m1 := model;
      InstallTrans(d0);
      ghost var m2, k := model, n;
      ClearLog(d0, Idle);
      LC.RepeatOne(g, m1, k, m2);
      LC.ReadThen(g, m0, m1, k + 1, model);
      LC.IdleContent(g, d0, model);
    }
  }

  lemma InstallNext(g: Geometry, d0: Disk, s: State)
    requires LC.CrashInv(g, d0, s) && (s.phase.Install? || s.phase.Recover?) && s.phase.k < |s.lh|
    ensures Enabled(g, s, DiskWrite) && LC.CrashInv(g, d0, TakeWrite(g, s))
    ensures g.start + 1 + s.phase.k < |s.disk| && s.lh[s.phase.k] < |s.disk|
    ensures var k := s.phase.k;
      TakeWrite(g, s) == AfterInstall(g, s, k, if s.phase.Install? then Install(k + 1) else Recover(k + 1))
  {
    hide LC.CrashInv;
    LC.CanWrite(g, d0, s);
    LC.HasBuffer(g, d0, s);
    LC.WriteKeeps(g, d0, s);
  }

  lemma WriteIndex(g: Geometry, s: State)
    requires Enabled(g, s, DiskWrite) && s.phase.k < |s.lh|
    ensures g.start + 1 + s.phase.k < |s.disk| && s.lh[s.phase.k] < |s.disk|
  {
  }
}
