/** What group commits make durable: the disk images the file system passes through between transactions. */
module LogImages {
  import opened Blocks
  import opened LogMachine
  import opened Options
  import opened Params
  import LC = LogCrash
  import LL = LogLimits

  /** bread shows `image` on every block of the file system. */
  ghost predicate Shows(g: Geometry, s: State, image: Disk)
  {
    |image| == |s.disk| && forall b: nat :: Home(g, s.disk, b) ==> View(s, b) == image[b]
  }

  /** The last outstanding end_op starts a commit. */
  predicate StartsCommit(s: State, step: Step)
  {
    step.EndOp? && s.outstanding == 1
  }

  /** A run without a crash, from a machine that shows images[0], that has started c commits, the j-th of them when
      bread shows images[j]. Operations may overlap; only what is shown when a group closes counts. */
  ghost predicate Serves(g: Geometry, s0: State, steps: seq<Step>, images: seq<Disk>, c: nat)
  {
    c < |images| && Exec(g, s0, steps).Some? &&
    if steps == [] then c == 0 && Shows(g, s0, images[0]) else
      var n := |steps| - 1;
      var s := Exec(g, s0, steps[..n]).value;
      && steps[n] != Crash
      && if StartsCommit(s, steps[n]) then c > 0 && Serves(g, s0, steps[..n], images, c - 1) && Shows(g, s, images[c])
         else Serves(g, s0, steps[..n], images, c)
  }

  /** A commit that has not written its header yet. */
  predicate Uncommitted(p: Phase)
  {
    p.Copy? || p == NoBuffers
  }

  /** After c commits the durable content is images[c], or the image before while the last commit is under way. */
  ghost predicate Held(g: Geometry, d0: Disk, s: State, images: seq<Disk>, c: nat)
  {
    && c < |images|
    && if Uncommitted(s.phase) then
         && c > 0 && LC.HomeBlocksEqual(g, LC.Replay(d0, s.durable), images[c - 1])
         && LC.HomeBlocksEqual(g, LC.Replay(d0, s.durable + s.current), images[c])
       else LC.HomeBlocksEqual(g, LC.Replay(d0, s.durable), images[c])
  }

  /** What bread shows is the committed content with the open group. */
  lemma ShowsOpen(g: Geometry, d0: Disk, s: State, image: Disk)
    requires LC.CrashInv(g, d0, s) && s.phase == Idle && Shows(g, s, image)
    ensures LC.HomeBlocksEqual(g, LC.Replay(d0, s.durable + s.current), image)
    ensures s.lh == [] ==> s.durable + s.current == s.durable
  {
    hide LC.Replay, LC.DiskInv, LC.Header, LC.GoodList, Pinned, View;
  }

  lemma HeldEnd(g: Geometry, d0: Disk, s: State, op: nat, images: seq<Disk>, c: nat)
    requires LC.CrashInv(g, d0, s) && Enabled(g, s, EndOp(op)) && s.outstanding == 1
    requires Held(g, d0, s, images, c) && c + 1 < |images| && Shows(g, s, images[c + 1])
    ensures Held(g, d0, AfterEnd(s, op), images, c + 1)
  {
    ShowsOpen(g, d0, s, images[c + 1]);
    hide LC.CrashInv, LC.Replay, LC.HomeBlocksEqual, Shows;
  }

  lemma HeldWrite(g: Geometry, d0: Disk, s: State, images: seq<Disk>, c: nat)
    requires LC.CrashInv(g, d0, s) && Enabled(g, s, DiskWrite) && Held(g, d0, s, images, c)
    ensures Held(g, d0, TakeWrite(g, s), images, c)
  {
    hide LC.CrashInv, LC.Replay, LC.HomeBlocksEqual, PutHeader, View, Fits;
    if !s.phase.Copy? {
      LC.HasBuffer(g, d0, s);
      HeldQuiet(g, d0, s, TakeWrite(g, s), images, c);
    }
  }

  lemma HeldQuiet(g: Geometry, d0: Disk, s: State, s': State, images: seq<Disk>, c: nat)
    requires Held(g, d0, s, images, c) && s'.durable == s.durable && !Uncommitted(s.phase) && !Uncommitted(s'.phase)
    ensures Held(g, d0, s', images, c)
  {
    hide LC.Replay, LC.HomeBlocksEqual;
  }

  lemma HeldStep(g: Geometry, d0: Disk, s: State, step: Step, images: seq<Disk>, c: nat)
    requires LC.CrashInv(g, d0, s) && Enabled(g, s, step) && step != Crash && Held(g, d0, s, images, c)
    requires StartsCommit(s, step) ==> c + 1 < |images| && Shows(g, s, images[c + 1])
    ensures Held(g, d0, TakeStep(g, s, step), images, if StartsCommit(s, step) then c + 1 else c)
  {
    if step == DiskWrite {
      hide LC.CrashInv, Held, Shows, Enabled, TakeWrite;
      HeldWrite(g, d0, s, images, c);
    } else if StartsCommit(s, step) {
      HeldEnd(g, d0, s, step.op, images, c);
    } else {
      hide LC.CrashInv, Held, Shows, HeaderBlocks;
      HeldQuiet(g, d0, s, TakeStep(g, s, step), images, c);
    }
  }

  /** The last step of such a run. */
  lemma ServesLast(g: Geometry, s0: State, steps: seq<Step>, images: seq<Disk>, c: nat)
    requires Serves(g, s0, steps, images, c) && steps != []
    ensures Exec(g, s0, steps).Some? && Exec(g, s0, steps[..|steps| - 1]).Some?
    ensures var n := |steps| - 1;
      var s := Exec(g, s0, steps[..n]).value;
      && steps[n] != Crash && Enabled(g, s, steps[n]) && Exec(g, s0, steps).value == TakeStep(g, s, steps[n])
      && (StartsCommit(s, steps[n]) ==> c > 0 && c < |images| && Shows(g, s, images[c]))
      && Serves(g, s0, steps[..n], images, if StartsCommit(s, steps[n]) then c - 1 else c)
  {
    hide Enabled, TakeStep, Shows;
  }

  lemma {:induction false} HeldAlways(g: Geometry, s0: State, steps: seq<Step>, images: seq<Disk>, c: nat)
    requires Init(g, s0) && LC.RoomyLog(g, s0.disk) && Serves(g, s0, steps, images, c)
    ensures Held(g, s0.disk, Exec(g, s0, steps).value, images, c)
  {
    if steps == [] {
      assert LC.Replay(s0.disk, []) == s0.disk;
    } else {
      hide Exec, LC.CrashInv, Held, Serves, Shows, Init, LC.RoomyLog, Enabled, TakeStep;
      var n := |steps| - 1;
      ServesLast(g, s0, steps, images, c);
      var s := Exec(g, s0, steps[..n]).value;
      var before := if StartsCommit(s, steps[n]) then c - 1 else c;
      LC.CrashInvAlways(g, s0, steps[..n]);
      HeldAlways(g, s0, steps[..n], images, before);
      HeldStep(g, s0.disk, s, steps[n], images, before);
    }
  }

  /** The image that a crash leaves. */
  function Surviving(s: State, c: nat): (j: nat)
  {
    if Uncommitted(s.phase) && c > 0 then c - 1 else c
  }

  /** A crash anywhere in the run, then recovery, however often it is interrupted: the file system is the image of
      the last commit that wrote its header. */
  lemma CrashLeavesImage(g: Geometry, s0: State, run: seq<Step>, reboot: seq<Step>, images: seq<Disk>, c: nat)
    requires Init(g, s0) && LC.RoomyLog(g, s0.disk) && Serves(g, s0, run, images, c)
    requires LC.Reboot(reboot) && Exec(g, s0, run + [Crash] + reboot).Some?
    ensures var j := Surviving(Exec(g, s0, run).value, c);
      var after := Exec(g, s0, run + [Crash] + reboot).value;
      j < |images| && (after.phase == Idle ==> LC.HomeBlocksEqual(g, after.disk, images[j]))
  {
    HeldAlways(g, s0, run, images, c);
    LC.CrashAtomicity(g, s0, run, reboot);
    hide Exec, LC.Replay, Serves;
  }

  // ---------- Such runs exist ----------

  lemma ServesRuns(g: Geometry, s0: State, run: seq<Step>, images: seq<Disk>, c: nat)
    requires Serves(g, s0, run, images, c)
    ensures Exec(g, s0, run).Some?
  {
  }

  lemma ServesStep(g: Geometry, s0: State, run: seq<Step>, images: seq<Disk>, c: nat, step: Step)
    requires Serves(g, s0, run, images, c) && step != Crash
    requires Enabled(g, Exec(g, s0, run).value, step) && !StartsCommit(Exec(g, s0, run).value, step)
    ensures Serves(g, s0, run + [step], images, c)
    ensures Exec(g, s0, run + [step]) == Some(TakeStep(g, Exec(g, s0, run).value, step))
  {
    ExecAppend(g, s0, run, step);
    assert (run + [step])[..|run|] == run;
  }

  lemma ServesCommit(g: Geometry, s0: State, run: seq<Step>, images: seq<Disk>, c: nat, step: Step)
    requires Serves(g, s0, run, images, c) && Enabled(g, Exec(g, s0, run).value, step)
    requires StartsCommit(Exec(g, s0, run).value, step)
    requires c + 1 < |images| && Shows(g, Exec(g, s0, run).value, images[c + 1])
    ensures Serves(g, s0, run + [step], images, c + 1)
    ensures Exec(g, s0, run + [step]) == Some(TakeStep(g, Exec(g, s0, run).value, step))
  {
    ExecAppend(g, s0, run, step);
    assert (run + [step])[..|run|] == run;
  }

  lemma {:induction false} ServesWrites(g: Geometry, s0: State, run: seq<Step>, images: seq<Disk>, c: nat, n: nat,
                                        t: State)
    requires Serves(g, s0, run, images, c) && Exec(g, Exec(g, s0, run).value, LC.Repeat(n)) == Some(t)
    ensures Serves(g, s0, run + LC.Repeat(n), images, c) && Exec(g, s0, run + LC.Repeat(n)) == Some(t)
  {
    ServesRuns(g, s0, run, images, c);
    if n == 0 {
      assert run + LC.Repeat(0) == run;
    } else {
      hide Exec, Serves, Enabled, TakeWrite, LC.Repeat;
      var s := Exec(g, s0, run).value;
      LC.LastWrite(g, s, n, t);
      ServesWrites(g, s0, run, images, c, n - 1, Exec(g, s, LC.Repeat(n - 1)).value);
      ServesStep(g, s0, run + LC.Repeat(n - 1), images, c, DiskWrite);
      assert run + LC.Repeat(n) == run + LC.Repeat(n - 1) + [DiskWrite];
    }
  }

  /** Nothing is going on. */
  ghost predicate Quiet(s: State)
  {
    s.phase == Idle && s.outstanding == 0 && s.lh == [] && s.cache == map[]
  }

  /** Operation op is the only one, and has logged nothing but blocks in `budget`. */
  ghost predicate Alone(s: State, op: nat, budget: set<nat>)
  {
    && s.phase == Idle && s.outstanding == 1 && op < |s.ops| && s.ops[op].active && !s.ops[op].inCall
    && s.ops[op].appends <= |s.lh| && Distinct(s.lh) && |budget| <= MAXOPBLOCKS && forall b :: b in s.lh ==> b in budget
  }

  lemma RoomLeft(lh: seq<nat>, budget: set<nat>)
    requires Distinct(lh) && forall b :: b in lh ==> b in budget
    ensures |lh| <= |budget| && forall b :: b in budget && b !in lh ==> |lh| < |budget|
  {
    var keys := set b | b in lh;
    DistinctSize(lh, keys);
    SetSize(keys, budget);
    forall b | b in budget && b !in lh
      ensures |lh| < |budget|
    {
      SetSize(keys + {b}, budget);
    }
  }

  lemma {:induction false} SetSize(a: set<nat>, b: set<nat>)
    requires a <= b
    ensures |a| <= |b|
  {
    if a != {} {
      var x :| x in a;
      SetSize(a - {x}, b - {x});
    }
  }

  /** One log_write, of a block that is in the log already or not. */
  lemma LogOne(g: Geometry, s: State, op: nat, budget: set<nat>, image: Disk, b: nat, data: Block)
    requires Alone(s, op, budget) && g.size >= LOGSIZE && Shows(g, s, image) && b in budget && Home(g, s.disk, b)
    ensures Enabled(g, s, Check(op))
    ensures var m := AfterCheck(g, s, op); var t := AfterLogWrite(m, op, b, data);
      && Enabled(g, m, Step.LogWrite(op, b, data)) && t.disk == s.disk
      && Alone(t, op, budget) && Shows(g, t, image[b := data])
  {
    RoomLeft(s.lh, budget);
    var m := AfterCheck(g, s, op);
    var t := AfterLogWrite(m, op, b, data);
    forall a: nat | Home(g, t.disk, a)
      ensures View(t, a) == image[b := data][a]
    {
      assert a != b ==> View(t, a) == View(s, a);
    }
  }

  /** The operation makes the first n of its log_writes. */
  lemma {:induction false} LogSome(g: Geometry, s0: State, run: seq<Step>, images: seq<Disk>, c: nat, op: nat,
                                   budget: set<nat>, image: Disk, ws: seq<Write>, n: nat)
    returns (run': seq<Step>)
    requires Serves(g, s0, run, images, c) && g.size >= LOGSIZE && n <= |ws|
    requires var s := Exec(g, s0, run).value;
      && Alone(s, op, budget) && Shows(g, s, image)
      && forall j :: 0 <= j < |ws| ==> ws[j].blockno in budget && Home(g, s.disk, ws[j].blockno)
    ensures Serves(g, s0, run', images, c)
    ensures var s := Exec(g, s0, run').value;
      Alone(s, op, budget) && Shows(g, s, LC.Replay(image, ws[..n])) && s.disk == Exec(g, s0, run).value.disk
  {
    hide Exec, Serves, Enabled;
    ServesRuns(g, s0, run, images, c);
    if n == 0 {
      run' := run;
    } else {
      hide Alone, Shows, TakeStep, AfterCheck, AfterLogWrite, LC.Replay;
      var mid := LogSome(g, s0, run, images, c, op, budget, image, ws, n - 1);
      ServesRuns(g, s0, mid, images, c);
      var w := ws[n - 1];
      LogOne(g, Exec(g, s0, mid).value, op, budget, LC.Replay(image, ws[..n - 1]), w.blockno, w.data);
      OneTaken(g, s0, mid, images, c, op, w.blockno, w.data);
      SizeShown(g, Exec(g, s0, run).value, image);
      LC.ReplayAppend(image, ws[..n - 1], w);
      assert ws[..n] == ws[..n - 1] + [w];
      run' := mid + [Check(op)] + [Step.LogWrite(op, w.blockno, w.data)];
    }
  }

  lemma SizeShown(g: Geometry, s: State, image: Disk)
    requires Shows(g, s, image)
    ensures |image| == |s.disk|
  {
  }

  lemma OneTaken(g: Geometry, s0: State, run: seq<Step>, images: seq<Disk>, c: nat, op: nat, b: nat, data: Block)
    requires Serves(g, s0, run, images, c) && Enabled(g, Exec(g, s0, run).value, Check(op))
    requires Enabled(g, AfterCheck(g, Exec(g, s0, run).value, op), Step.LogWrite(op, b, data))
    ensures var next := run + [Check(op)] + [Step.LogWrite(op, b, data)];
      && Serves(g, s0, next, images, c)
      && Exec(g, s0, next) == Some(AfterLogWrite(AfterCheck(g, Exec(g, s0, run).value, op), op, b, data))
  {
    hide Exec, Serves, AfterCheck, AfterLogWrite;
    ServesStep(g, s0, run, images, c, Check(op));
    ServesStep(g, s0, run + [Check(op)], images, c, Step.LogWrite(op, b, data));
  }

  /** begin_op on a quiet machine. */
  lemma BeginAlone(g: Geometry, s: State, image: Disk, budget: set<nat>)
    requires Quiet(s) && Shows(g, s, image) && |budget| <= MAXOPBLOCKS
    ensures Enabled(g, s, BeginOp) && Alone(AfterBegin(s), |s.ops|, budget) && Shows(g, AfterBegin(s), image)
    ensures AfterBegin(s).disk == s.disk
  {
    forall b: nat | Home(g, s.disk, b)
      ensures View(AfterBegin(s), b) == image[b]
    {
      assert View(s, b) == image[b];
    }
  }

  /** The commit of one operation's blocks runs to its end. */
  lemma CommitRuns(g: Geometry, s0: State, run: seq<Step>, images: seq<Disk>, c: nat) returns (run': seq<Step>)
    requires Init(g, s0) && LC.RoomyLog(g, s0.disk) && Serves(g, s0, run, images, c)
    requires var s := Exec(g, s0, run).value; s.phase == Done || (s.phase == Copy(0) && |s.lh| < NBUF)
    ensures Serves(g, s0, run', images, c) && Quiet(Exec(g, s0, run').value)
  {
    hide Exec, Serves, Enabled, LC.CrashInv, Reserved, Pinned;
    ServesRuns(g, s0, run, images, c);
    var s := Exec(g, s0, run).value;
    var mid, t := run, s;
    if s.phase != Done {
      LC.CrashInvAlways(g, s0, run);
      var n;
      n, t := LL.CopyRuns(g, s0.disk, s, 0);
      ServesWrites(g, s0, run, images, c, n, t);
      mid := run + LC.Repeat(n);
    }
    assert Exec(g, s0, mid) == Some(t);
    DoneFacts(g, s0, mid, t);
    ServesStep(g, s0, mid, images, c, Finish);
    run' := mid + [Finish];
  }

  lemma DoneFacts(g: Geometry, s0: State, run: seq<Step>, t: State)
    requires Init(g, s0) && LC.RoomyLog(g, s0.disk) && Exec(g, s0, run) == Some(t) && t.phase == Done
    ensures t.lh == [] && t.cache == map[] && t.outstanding == 0 && Enabled(g, t, Finish)
  {
    hide Exec, LC.CrashInv, Reserved, LC.RoomyLog, Init;
    LC.CrashInvAlways(g, s0, run);
    ReservedAlways(g, s0, run);
    DoneMemory(g, s0.disk, t);
    DoneAlone(g, t);
  }

  lemma DoneMemory(g: Geometry, d0: Disk, s: State)
    requires LC.CrashInv(g, d0, s) && s.phase == Done
    ensures s.lh == [] && s.cache == map[]
  {
    hide LC.DiskInv, LC.PhaseInv, LC.GoodList, LC.Replay;
  }

  lemma DoneAlone(g: Geometry, s: State)
    requires Reserved(g, s) && s.phase == Done
    ensures s.outstanding == 0
  {
    hide Count, Budget, Distinct;
  }

  /** An operation makes any log_writes, in any order and as often as it likes, to at most MAXOPBLOCKS blocks, and they
      turn images[c] into images[c + 1]. It can be run to the end of its commit: no panic, no lack of buffers. */
  lemma Transaction(g: Geometry, s0: State, run: seq<Step>, images: seq<Disk>, c: nat, ws: seq<Write>, budget: set<nat>)
    returns (run': seq<Step>)
    requires Init(g, s0) && LC.RoomyLog(g, s0.disk) && Serves(g, s0, run, images, c) && c + 1 < |images|
    requires Quiet(Exec(g, s0, run).value) && Shows(g, Exec(g, s0, run).value, images[c])
    requires Turns(g, Exec(g, s0, run).value.disk, images[c], images[c + 1], ws, budget)
    ensures Serves(g, s0, run', images, c + 1)
    ensures Quiet(Exec(g, s0, run').value) && Shows(g, Exec(g, s0, run').value, images[c + 1])
  {
    hide Exec, Serves, Enabled, Quiet, Shows, AfterBegin, AfterEnd, Alone;
    ServesRuns(g, s0, run, images, c);
    var s := Exec(g, s0, run).value;
    BeginAlone(g, s, images[c], budget);
    ServesStep(g, s0, run, images, c, BeginOp);
    var s1, op := AfterBegin(s), |s.ops|;
    var loaded := LogSome(g, s0, run + [BeginOp], images, c, op, budget, images[c], ws, |ws|);
    assert ws[..|ws|] == ws;
    ServesRuns(g, s0, loaded, images, c);
    var s2 := Exec(g, s0, loaded).value;
    EndFacts(g, s2, op, budget);
    ServesCommit(g, s0, loaded, images, c, EndOp(op));
    run' := CommitRuns(g, s0, loaded + [EndOp(op)], images, c + 1);
    QuietShows(g, s0, run', images, c + 1);
  }

  /** The writes turn image into image', and are all to at most MAXOPBLOCKS blocks of the file system. */
  ghost predicate Turns(g: Geometry, d: Disk, image: Disk, image': Disk, ws: seq<Write>, budget: set<nat>)
  {
    && |budget| <= MAXOPBLOCKS && LC.Replay(image, ws) == image'
    && forall j :: 0 <= j < |ws| ==> ws[j].blockno in budget && Home(g, d, ws[j].blockno)
  }

  lemma EndFacts(g: Geometry, s: State, op: nat, budget: set<nat>)
    requires Alone(s, op, budget)
    ensures Enabled(g, s, EndOp(op)) && StartsCommit(s, EndOp(op))
    ensures var t := AfterEnd(s, op); t.phase == Done || (t.phase == Copy(0) && |t.lh| < NBUF)
  {
    RoomLeft(s.lh, budget);
  }

  /** A quiet machine shows what has been committed. */
  lemma QuietShows(g: Geometry, s0: State, run: seq<Step>, images: seq<Disk>, c: nat)
    requires Init(g, s0) && LC.RoomyLog(g, s0.disk) && Serves(g, s0, run, images, c) && Quiet(Exec(g, s0, run).value)
    ensures Shows(g, Exec(g, s0, run).value, images[c])
  {
    var s := Exec(g, s0, run).value;
    HeldAlways(g, s0, run, images, c);
    LC.CrashInvAlways(g, s0, run);
    hide Exec, Serves, LC.Replay, LC.DiskInv, LC.Header, LC.GoodList, Pinned;
    assert s.durable + s.current == s.durable;
    forall b: nat | Home(g, s.disk, b)
      ensures View(s, b) == images[c][b]
    {
      assert View(s, b) == LC.Replay(s0.disk, s.durable)[b];
    }
  }
}
