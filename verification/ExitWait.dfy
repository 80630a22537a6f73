/** Process families: fork, exit, wait, sleep, wakeup and kill as steps under ptable.lock. */
module ExitWait {
  import opened Options

  datatype ProcState = UNUSED | EMBRYO | SLEEPING | RUNNABLE | RUNNING | ZOMBIE

  /** Sleep channels: a process sleeping in wait sleeps on its own table entry. */
  datatype Chan = NoChan | OnProc(p: nat) | OnOther(c: nat)

  /** `kstack` and `pgdir` name the memory a process holds. */
  datatype Proc = Proc(state: ProcState, parent: Option<nat>, chan: Chan, killed: bool, kstack: Option<nat>,
                       pgdir: Option<nat>)

  type Procs = seq<Proc>

  /** `next` numbers the stacks and directories ever allocated; `freed` lists those given back, in order. */
  datatype State = State(procs: Procs, init: nat, next: nat, freed: seq<nat>)

  datatype Step =
    | AllocProc(np: nat)                          // allocproc found an unused slot and a stack
    | ForkCopy(p: nat, np: nat)                   // fork copied the address space and set the parent
    | ForkFail(np: nat)                           // copyuvm failed
    | ForkDone(np: nat)
    | Schedule(p: nat)
    | Yield(p: nat)
    | SleepOn(p: nat, c: nat)
    | Wakeup(c: nat)
    | Exit(p: nat)
    | Wait(p: nat)                                // one scan of wait's loop
    | Kill(p: nat)

  predicate Alive(p: Proc)
  {
    p.state == SLEEPING || p.state == RUNNABLE || p.state == RUNNING
  }

  predicate Running(s: State, p: nat)
  {
    p < |s.procs| && s.procs[p].state == RUNNING
  }

  predicate Embryo(s: State, np: nat)
  {
    np < |s.procs| && s.procs[np].state == EMBRYO
  }

  predicate Enabled(s: State, step: Step)
  {
    match step
    case AllocProc(np) => np < |s.procs| && s.procs[np].state == UNUSED
    case ForkCopy(p, np) => Running(s, p) && Embryo(s, np) && s.procs[np].parent.None?
    case ForkFail(np) => Embryo(s, np) && s.procs[np].parent.None?
    case ForkDone(np) => Embryo(s, np) && s.procs[np].parent.Some?
    case Schedule(p) => p < |s.procs| && s.procs[p].state == RUNNABLE
    case Yield(p) => Running(s, p)
    case SleepOn(p, _) => Running(s, p)
    case Wakeup(_) => true
    case Exit(p) => Running(s, p) && p != s.init
    case Wait(p) => Running(s, p)
    case Kill(p) => p < |s.procs|
  }

  /** wakeup1 on one slot. */
  function Woken(p: Proc, chan: Chan): (r: Proc)
  {
    if p.state == SLEEPING && p.chan == chan then p.(state := RUNNABLE) else p
  }

  function Wake(ps: Procs, chan: Chan): (r: Procs)
    ensures |r| == |ps|
  {
    seq(|ps|, i requires 0 <= i < |ps| => Woken(ps[i], chan))
  }

  /** The channel a child wakes when it exits. */
  function ParentChan(p: Proc): (c: Chan)
  {
    if p.parent.Some? then OnProc(p.parent.value) else NoChan
  }

  predicate HasZombieChild(ps: Procs, p: nat)
  {
    exists i :: 0 <= i < |ps| && ps[i].parent == Some(p) && ps[i].state == ZOMBIE
  }

  function Adopt(ps: Procs, p: nat, init: nat): (r: Procs)
    ensures |r| == |ps|
  {
    seq(|ps|, i requires 0 <= i < |ps| => if ps[i].parent == Some(p) then ps[i].(parent := Some(init)) else ps[i])
  }

  /** exit: wake the parent, give the children to init, wake init if one of them is a zombie, become a zombie. */
  function AfterExit(ps: Procs, p: nat, init: nat): (r: Procs)
    requires p < |ps|
  {
    var a := Adopt(Wake(ps, ParentChan(ps[p])), p, init);
    var b := if HasZombieChild(ps, p) then Wake(a, OnProc(init)) else a;
    b[p := b[p].(state := ZOMBIE)]
  }

  function Reaped(p: Proc): (r: Proc)
  {
    p.(state := UNUSED, parent := None, killed := false, kstack := None)
  }

  function Given(r: Option<nat>): (s: seq<nat>)
  {
    if r.Some? then [r.value] else []
  }

  predicate HasKids(ps: Procs, p: nat)
  {
    exists i :: 0 <= i < |ps| && ps[i].parent == Some(p)
  }

  /** The index of the first zombie child at or after i. */
  function ZombieFrom(ps: Procs, p: nat, i: nat): (r: Option<nat>)
    requires i <= |ps|
    ensures r.Some? ==> i <= r.value < |ps| && ps[r.value].parent == Some(p) && ps[r.value].state == ZOMBIE
    ensures r.Some? ==> forall k :: i <= k < r.value && ps[k].parent == Some(p) ==> ps[k].state != ZOMBIE
    ensures r.None? ==> forall k :: i <= k < |ps| && ps[k].parent == Some(p) ==> ps[k].state != ZOMBIE
    decreases |ps| - i
  {
    if i == |ps| then None
    else if ps[i].parent == Some(p) && ps[i].state == ZOMBIE then Some(i)
    else ZombieFrom(ps, p, i + 1)
  }

  /** One scan of wait: reap a zombie child, or return if there is nothing to wait for, or sleep. */
  function AfterWait(s: State, p: nat): (s': State)
    requires p < |s.procs|
  {
    var j := ZombieFrom(s.procs, p, 0);
    if j.Some? then
      s.(procs := s.procs[j.value := Reaped(s.procs[j.value])],
         freed := s.freed + Given(s.procs[j.value].kstack) + Given(s.procs[j.value].pgdir))
    else if !HasKids(s.procs, p) || s.procs[p].killed then s
    else s.(procs := s.procs[p := s.procs[p].(state := SLEEPING, chan := OnProc(p))])
  }

  function SetProc(s: State, i: nat, p: Proc): (s': State)
    requires i < |s.procs|
  {
    s.(procs := s.procs[i := p])
  }

  function TakeStep(s: State, step: Step): (s': State)
    requires Enabled(s, step)
  {
    match step
    case AllocProc(np) => SetProc(s, np, s.procs[np].(state := EMBRYO, kstack := Some(s.next))).(next := s.next + 1)
    case ForkCopy(p, np) => SetProc(s, np, s.procs[np].(pgdir := Some(s.next), parent := Some(p))).(next := s.next + 1)
    case ForkFail(np) =>
      SetProc(s, np, s.procs[np].(state := UNUSED, kstack := None, pgdir := None))
        .(freed := s.freed + Given(s.procs[np].kstack))
    case ForkDone(np) => SetProc(s, np, s.procs[np].(state := RUNNABLE))
    case Schedule(p) => SetProc(s, p, s.procs[p].(state := RUNNING))
    case Yield(p) => SetProc(s, p, s.procs[p].(state := RUNNABLE))
    case SleepOn(p, c) => SetProc(s, p, s.procs[p].(state := SLEEPING, chan := OnOther(c)))
    case Wakeup(c) => s.(procs := Wake(s.procs, OnOther(c)))
    case Exit(p) => s.(procs := AfterExit(s.procs, p, s.init))
    case Wait(p) => AfterWait(s, p)
    case Kill(p) =>
      SetProc(s, p, s.procs[p].(killed := true,
                                state := if s.procs[p].state == SLEEPING then RUNNABLE else s.procs[p].state))
  }

  function Exec(s: State, steps: seq<Step>): (r: Option<State>)
  {
    if steps == [] then Some(s) else
      match Exec(s, steps[..|steps| - 1])
      case None => None
      case Some(m) => if Enabled(m, steps[|steps| - 1]) then Some(TakeStep(m, steps[|steps| - 1])) else None
  }

  const Blank: Proc := Proc(UNUSED, None, NoChan, false, None, None)

  /** userinit: init is runnable, everything else unused. */
  predicate Init(s: State)
  {
    && s.init < |s.procs| && s.next == 2 && s.freed == []
    && (forall i :: 0 <= i < |s.procs| ==>
          s.procs[i] == if i == s.init then Proc(RUNNABLE, None, NoChan, false, Some(0), Some(1)) else Blank)
  }

  // ---------- Families ----------

  predicate LiveParent(ps: Procs, init: nat, i: nat)
    requires i < |ps|
  {
    var p := ps[i];
    && (p.state == UNUSED ==> p.parent.None?)
    && (p.parent.Some? ==> p.parent.value < |ps| && Alive(ps[p.parent.value]) && p.parent.value != i && i != init)
    && ((Alive(p) || p.state == ZOMBIE) && i != init ==> p.parent.Some?)
  }

  /** Nobody sleeps in wait next to a zombie child, and only a process itself sleeps on its entry. */
  predicate AwakeFor(ps: Procs, i: nat, j: nat)
    requires i < |ps| && j < |ps|
  {
    ps[i].state == SLEEPING && ps[i].chan == OnProc(i) ==> !(ps[j].parent == Some(i) && ps[j].state == ZOMBIE)
  }

  /** Whoever sleeps in wait has a child and is not killed. */
  predicate WaitsForChild(ps: Procs, i: nat)
    requires i < |ps|
  {
    ps[i].state == SLEEPING && ps[i].chan == OnProc(i) ==>
      !ps[i].killed && exists j :: 0 <= j < |ps| && ps[j].parent == Some(i)
  }

  ghost predicate Family(s: State)
  {
    && s.init < |s.procs| && Alive(s.procs[s.init])
    && (forall i :: 0 <= i < |s.procs| ==> LiveParent(s.procs, s.init, i))
    && (forall i :: 0 <= i < |s.procs| && s.procs[i].state == SLEEPING && s.procs[i].chan.OnProc? ==>
          s.procs[i].chan.p == i)
    && (forall i, j :: 0 <= i < |s.procs| && 0 <= j < |s.procs| ==> AwakeFor(s.procs, i, j))
    && (forall i :: 0 <= i < |s.procs| ==> WaitsForChild(s.procs, i))
  }

  /** A process that sleeps in wait goes on with the children it has. */
  lemma StillWaits(ps: Procs, ps': Procs, i: nat)
    requires i < |ps| == |ps'| && WaitsForChild(ps, i)
    requires ps'[i].state == SLEEPING && ps'[i].chan == OnProc(i) ==>
      && ps[i].state == SLEEPING && ps[i].chan == OnProc(i) && ps'[i].killed == ps[i].killed
      && forall j :: 0 <= j < |ps| && ps[j].parent == Some(i) ==> ps'[j].parent == Some(i)
    ensures WaitsForChild(ps', i)
  {
    if ps'[i].state == SLEEPING && ps'[i].chan == OnProc(i) {
      var j :| 0 <= j < |ps| && ps[j].parent == Some(i);
      assert ps'[j].parent == Some(i);
    }
  }

  predicate Wakes(ps: Procs, p: nat, init: nat, chan: Chan)
    requires p < |ps|
  {
    chan == ParentChan(ps[p]) || (HasZombieChild(ps, p) && chan == OnProc(init))
  }

  /** What exit does to each slot. */
  lemma ExitSlot(ps: Procs, p: nat, init: nat, i: nat)
    requires p < |ps| && i < |ps|
    ensures |AfterExit(ps, p, init)| == |ps|
    ensures var r := AfterExit(ps, p, init)[i];
      && r.parent == (if ps[i].parent == Some(p) then Some(init) else ps[i].parent)
      && r.chan == ps[i].chan && r.killed == ps[i].killed && r.kstack == ps[i].kstack && r.pgdir == ps[i].pgdir
      && r.state == (if i == p then ZOMBIE
                     else if ps[i].state == SLEEPING && Wakes(ps, p, init, ps[i].chan) then RUNNABLE else ps[i].state)
  {
  }

  lemma ExitParent(s: State, p: nat, i: nat)
    requires Family(s) && Enabled(s, Exit(p)) && i < |s.procs|
    ensures i < |AfterExit(s.procs, p, s.init)| && LiveParent(AfterExit(s.procs, p, s.init), s.init, i)
  {
    var ps := s.procs;
    ExitSlot(ps, p, s.init, i);
    ExitSlot(ps, p, s.init, s.init);
    assert LiveParent(ps, s.init, i);
    if ps[i].parent.Some? {
      ExitSlot(ps, p, s.init, ps[i].parent.value);
    }
    hide AfterExit;
  }

  /** Whoever becomes responsible for a zombie is awake afterwards. */
  lemma ExitAwake(s: State, p: nat, i: nat, j: nat)
    requires Family(s) && Enabled(s, Exit(p)) && i < |s.procs| && j < |s.procs|
    ensures |AfterExit(s.procs, p, s.init)| == |s.procs| && AwakeFor(AfterExit(s.procs, p, s.init), i, j)
  {
    var ps := s.procs;
    ExitSlot(ps, p, s.init, i);
    ExitSlot(ps, p, s.init, j);
    assert AwakeFor(ps, i, j) && LiveParent(ps, s.init, p);
    hide AfterExit;
    if ps[j].parent == Some(p) && ps[j].state == ZOMBIE {
      assert HasZombieChild(ps, p);
    }
  }

  lemma ExitWaits(s: State, p: nat, i: nat)
    requires Family(s) && Enabled(s, Exit(p)) && i < |s.procs|
    ensures |AfterExit(s.procs, p, s.init)| == |s.procs| && WaitsForChild(AfterExit(s.procs, p, s.init), i)
  {
    var ps := s.procs;
    var r := AfterExit(ps, p, s.init);
    assert WaitsForChild(ps, i);
    ExitSlot(ps, p, s.init, i);
    hide AfterExit, Family, WaitsForChild;
    forall j | 0 <= j < |ps|
      ensures ps[j].parent == Some(i) && i != p ==> r[j].parent == Some(i)
    {
      ExitSlot(ps, p, s.init, j);
    }
    StillWaits(ps, r, i);
  }

  lemma ExitFamily(s: State, p: nat)
    requires Family(s) && Enabled(s, Exit(p))
    ensures Family(TakeStep(s, Exit(p)))
  {
    var ps, init := s.procs, s.init;
    var r := AfterExit(ps, p, init);
    ExitSlot(ps, p, init, init);
    hide AfterExit, LiveParent, AwakeFor, WaitsForChild;
    forall i | 0 <= i < |r|
      ensures LiveParent(r, init, i) && WaitsForChild(r, i)
    {
      ExitParent(s, p, i);
      ExitWaits(s, p, i);
    }
    forall i | 0 <= i < |r| && r[i].state == SLEEPING && r[i].chan.OnProc?
      ensures r[i].chan.p == i
    {
      ExitSlot(ps, p, init, i);
    }
    forall i, j | 0 <= i < |r| && 0 <= j < |r|
      ensures AwakeFor(r, i, j)
    {
      ExitAwake(s, p, i, j);
    }
  }

  /** Slot j, a zombie child of p, becomes unused and its memory is freed. */
  predicate Reaps(s: State, s': State, p: nat, j: nat)
  {
    && j < |s.procs| && s.procs[j].parent == Some(p) && s.procs[j].state == ZOMBIE
    && (forall k :: 0 <= k < j && s.procs[k].parent == Some(p) ==> s.procs[k].state != ZOMBIE)
    && s'.procs ==
       s.procs[j := s.procs[j].(state := UNUSED, parent := None, killed := false, kstack := None)]
    && s' == s.(procs := s'.procs, freed := s.freed + Given(s.procs[j].kstack) + Given(s.procs[j].pgdir))
  }

  /** One scan of wait reaps a child exactly if there is a zombie child; it returns without one exactly if there is none
      and the caller has no child or is killed; otherwise the caller sleeps. */
  lemma WaitDecides(s: State, p: nat)
    requires Enabled(s, Wait(p))
    ensures var s', ps := TakeStep(s, Wait(p)), s.procs;
      var zombie := exists j :: 0 <= j < |ps| && ps[j].parent == Some(p) && ps[j].state == ZOMBIE;
      var child := exists j :: 0 <= j < |ps| && ps[j].parent == Some(p);
      && ((exists j :: Reaps(s, s', p, j)) <==> zombie)
      && (s' == s <==> !zombie && (!child || ps[p].killed))
      && (s' == s.(procs := ps[p := ps[p].(state := SLEEPING, chan := OnProc(p))]) <==>
          !zombie && child && !ps[p].killed)
  {
    var s', ps := TakeStep(s, Wait(p)), s.procs;
    var j := ZombieFrom(ps, p, 0);
    if j.Some? {
      assert ps[j.value].parent == Some(p) && ps[j.value].state == ZOMBIE;
      assert Reaps(s, s', p, j.value);
      assert s'.procs[j.value].state == UNUSED;
      assert s'.procs[p].state == RUNNING;
    }
  }

  /** A killed process is awake, and unless it has a zombie child its next scan of wait returns. */
  lemma KilledReturns(s: State, p: nat)
    requires Enabled(s, Kill(p))
    ensures var s' := TakeStep(s, Kill(p));
      && s'.procs == s.procs[p := s'.procs[p]] && s'.procs[p].killed && s'.procs[p].state != SLEEPING
      && (s.procs[p].state != SLEEPING ==> s'.procs[p].state == s.procs[p].state)
    ensures var s' := TakeStep(s, Kill(p));
      && Running(s', p)
      && (forall j :: 0 <= j < |s.procs| && s.procs[j].parent == Some(p) ==> s.procs[j].state != ZOMBIE) ==>
        TakeStep(s', Wait(p)) == s'
  {
    var s' := TakeStep(s, Kill(p));
    if Running(s', p) {
      WaitDecides(s', p);
    }
  }

  lemma WaitParent(s: State, p: nat, i: nat)
    requires Family(s) && Enabled(s, Wait(p)) && i < |s.procs|
    ensures |AfterWait(s, p).procs| == |s.procs| && LiveParent(AfterWait(s, p).procs, s.init, i)
  {
    assert LiveParent(s.procs, s.init, i);
    hide Family, HasKids;
  }

  lemma WaitAwake(s: State, p: nat, i: nat, j: nat)
    requires Family(s) && Enabled(s, Wait(p)) && i < |s.procs| && j < |s.procs|
    ensures |AfterWait(s, p).procs| == |s.procs| && AwakeFor(AfterWait(s, p).procs, i, j)
  {
    assert AwakeFor(s.procs, i, j);
    hide Family;
  }

  /** In a slot that is in use wait only changes the caller, which goes to sleep on its own entry. */
  lemma WaitSlot(s: State, p: nat, i: nat)
    requires Enabled(s, Wait(p)) && i < |s.procs|
    ensures |AfterWait(s, p).procs| == |s.procs| && AfterWait(s, p).init == s.init
    ensures var r := AfterWait(s, p).procs[i];
      r == s.procs[i] || (s.procs[i].state == ZOMBIE && r.state == UNUSED) ||
      (i == p && r.state == SLEEPING && r.chan == OnProc(i))
  {
  }

  lemma WaitFamily(s: State, p: nat)
    requires Family(s) && Enabled(s, Wait(p))
    ensures Family(TakeStep(s, Wait(p)))
  {
    hide WaitsForChild, LiveParent, AwakeFor, AfterWait;
    var s' := AfterWait(s, p);
    WaitSlot(s, p, s.init);
    forall i | 0 <= i < |s'.procs|
      ensures WaitsForChild(s'.procs, i) && LiveParent(s'.procs, s'.init, i)
      ensures s'.procs[i].state == SLEEPING && s'.procs[i].chan.OnProc? ==> s'.procs[i].chan.p == i
    {
      WaitWaits(s, p, i);
      WaitParent(s, p, i);
      WaitSlot(s, p, i);
    }
    forall i, j | 0 <= i < |s'.procs| && 0 <= j < |s'.procs|
      ensures AwakeFor(s'.procs, i, j)
    {
      WaitAwake(s, p, i, j);
    }
  }

  lemma WaitWaits(s: State, p: nat, i: nat)
    requires Enabled(s, Wait(p)) && i < |s.procs| && WaitsForChild(s.procs, i)
    ensures |AfterWait(s, p).procs| == |s.procs| && WaitsForChild(AfterWait(s, p).procs, i)
  {
    var ps, ps' := s.procs, AfterWait(s, p).procs;
    if i == p {
      if ps'[p].state == SLEEPING {
        var j :| 0 <= j < |ps| && ps[j].parent == Some(p);
        assert ps'[j].parent == Some(p);
      }
    } else {
      StillWaits(ps, ps', i);
    }
  }

  lemma OtherWaits(s: State, step: Step, i: nat)
    requires Enabled(s, step) && !step.Exit? && !step.Wait? && i < |s.procs| && WaitsForChild(s.procs, i)
    ensures |TakeStep(s, step).procs| == |s.procs| && WaitsForChild(TakeStep(s, step).procs, i)
  {
    hide WaitsForChild;
    StillWaits(s.procs, TakeStep(s, step).procs, i);
  }

  lemma OtherParent(s: State, step: Step, i: nat)
    requires Family(s) && Enabled(s, step) && !step.Exit? && !step.Wait? && i < |s.procs|
    ensures |TakeStep(s, step).procs| == |s.procs| && LiveParent(TakeStep(s, step).procs, s.init, i)
  {
    assert LiveParent(s.procs, s.init, i);
    hide WaitsForChild, AwakeFor;
  }

  lemma OtherAwake(s: State, step: Step, i: nat, j: nat)
    requires Family(s) && Enabled(s, step) && !step.Exit? && !step.Wait? && i < |s.procs| && j < |s.procs|
    ensures |TakeStep(s, step).procs| == |s.procs| && AwakeFor(TakeStep(s, step).procs, i, j)
  {
    assert AwakeFor(s.procs, i, j);
    hide Family;
  }

  lemma OtherFamily(s: State, step: Step)
    requires Family(s) && Enabled(s, step) && !step.Exit? && !step.Wait?
    ensures Family(TakeStep(s, step))
  {
    hide WaitsForChild, LiveParent, AwakeFor;
    var s' := TakeStep(s, step);
    forall i | 0 <= i < |s'.procs|
      ensures WaitsForChild(s'.procs, i) && LiveParent(s'.procs, s'.init, i)
    {
      OtherWaits(s, step, i);
      OtherParent(s, step, i);
    }
    forall i, j | 0 <= i < |s'.procs| && 0 <= j < |s'.procs|
      ensures AwakeFor(s'.procs, i, j)
    {
      OtherAwake(s, step, i, j);
    }
  }

  /** No exit is lost, in any run: every process but init has a living parent, and whenever the lock is free a
      process that sleeps in wait has a child, no zombie child, and is not killed. */
  lemma {:induction false} NoLostExits(s0: State, steps: seq<Step>)
    requires Init(s0) && Exec(s0, steps).Some?
    ensures Family(Exec(s0, steps).value)
  {
    if steps != [] {
      var n := |steps| - 1;
      NoLostExits(s0, steps[..n]);
      var m := Exec(s0, steps[..n]).value;
      match steps[n]
      case Exit(p) => ExitFamily(m, p);
      case Wait(p) => WaitFamily(m, p);
      case _ => OtherFamily(m, steps[n]);
    }
  }

  // ---------- Stacks and page directories ----------

  function Is(r: Option<nat>, x: nat): (n: nat)
  {
    if r == Some(x) then 1 else 0
  }

  /** How often slot p is responsible for memory x: an embryo has its stack, later both. */
  function Holds(p: Proc, x: nat): (n: nat)
  {
    if p.state == UNUSED then 0
    else Is(p.kstack, x) + (if p.state == EMBRYO && p.parent.None? then 0 else Is(p.pgdir, x))
  }

  function Held(ps: Procs, x: nat): (n: nat)
  {
    if ps == [] then 0 else Held(ps[..|ps| - 1], x) + Holds(ps[|ps| - 1], x)
  }

  function Freed(fs: seq<nat>, x: nat): (n: nat)
  {
    if fs == [] then 0 else Freed(fs[..|fs| - 1], x) + (if fs[|fs| - 1] == x then 1 else 0)
  }

  lemma {:induction false} HeldUpdate(ps: Procs, i: nat, p: Proc, x: nat)
    requires i < |ps|
    ensures Held(ps[i := p], x) + Holds(ps[i], x) == Held(ps, x) + Holds(p, x)
  {
    hide Holds;
    var n := |ps| - 1;
    if i == n {
      assert ps[i := p][..n] == ps[..n];
    } else {
      assert ps[i := p][..n] == ps[..n][i := p];
      HeldUpdate(ps[..n], i, p, x);
    }
  }

  lemma {:induction false} HeldSame(ps: Procs, qs: Procs, x: nat)
    requires |ps| == |qs| && forall i :: 0 <= i < |ps| ==> Holds(ps[i], x) == Holds(qs[i], x)
    ensures Held(ps, x) == Held(qs, x)
  {
    hide Holds;
    if ps != [] {
      HeldSame(ps[..|ps| - 1], qs[..|qs| - 1], x);
    }
  }

  lemma {:induction false} HeldOne(ps: Procs, i: nat, x: nat)
    requires i < |ps|
    ensures Holds(ps[i], x) <= Held(ps, x)
  {
    hide Holds;
    if i < |ps| - 1 {
      HeldOne(ps[..|ps| - 1], i, x);
    }
  }

  lemma FreedMore(fs: seq<nat>, r: Option<nat>, x: nat)
    ensures Freed(fs + Given(r), x) == Freed(fs, x) + Is(r, x)
  {
    if r.Some? {
      assert (fs + [r.value])[..|fs|] == fs;
    } else {
      assert fs + [] == fs;
    }
  }

  /** Each stack and directory ever allocated is held by exactly one slot or has been freed exactly once. */
  ghost predicate Conserved(s: State)
  {
    && (forall x: nat :: Held(s.procs, x) + Freed(s.freed, x) == if x < s.next then 1 else 0)
    && (forall i :: 0 <= i < |s.procs| ==> Equipped(s.procs[i]))
  }

  predicate Equipped(p: Proc)
  {
    && (p.state != UNUSED ==> p.kstack.Some?)
    && (p.state != UNUSED && !(p.state == EMBRYO && p.parent.None?) ==> p.pgdir.Some?)
  }

  /** One slot changes and its accounts balance. */
  lemma SlotConserved(s: State, i: nat, p: Proc, s': State)
    requires Conserved(s) && i < |s.procs| && Equipped(p) && s'.procs == s.procs[i := p]
    requires forall x: nat ::
      Holds(p, x) + Freed(s'.freed, x) + (if x < s.next then 1 else 0) ==
        Holds(s.procs[i], x) + Freed(s.freed, x) + (if x < s'.next then 1 else 0)
    ensures Conserved(s')
  {
    forall x: nat
      ensures Held(s'.procs, x) + Freed(s'.freed, x) == if x < s'.next then 1 else 0
    {
      HeldUpdate(s.procs, i, p, x);
    }
  }

  lemma ExitConserved(s: State, p: nat)
    requires Conserved(s) && Family(s) && Enabled(s, Exit(p))
    ensures Conserved(TakeStep(s, Exit(p)))
  {
    var r := AfterExit(s.procs, p, s.init);
    ExitSlot(s.procs, p, s.init, p);
    hide AfterExit, Family;
    forall i | 0 <= i < |r|
      ensures Equipped(r[i])
      ensures forall x: nat :: Holds(r[i], x) == Holds(s.procs[i], x)
    {
      ExitSlot(s.procs, p, s.init, i);
    }
    forall x: nat
      ensures Held(r, x) == Held(s.procs, x)
    {
      HeldSame(r, s.procs, x);
    }
  }

  lemma WakeConserved(s: State, chan: Chan)
    requires Conserved(s)
    ensures Conserved(s.(procs := Wake(s.procs, chan)))
  {
    var r := Wake(s.procs, chan);
    forall x: nat
      ensures Held(r, x) == Held(s.procs, x)
    {
      HeldSame(r, s.procs, x);
    }
  }

  lemma WaitConserved(s: State, p: nat)
    requires Conserved(s) && Family(s) && Enabled(s, Wait(p))
    ensures Conserved(TakeStep(s, Wait(p)))
  {
    hide Family, Conserved;
    var s' := AfterWait(s, p);
    var j := ZombieFrom(s.procs, p, 0);
    if j.Some? {
      var z := s.procs[j.value];
      assert s'.procs == s.procs[j.value := Reaped(z)];
      forall x: nat
        ensures Freed(s'.freed, x) == Freed(s.freed, x) + Is(z.kstack, x) + Is(z.pgdir, x)
      {
        FreedMore(s.freed, z.kstack, x);
        FreedMore(s.freed + Given(z.kstack), z.pgdir, x);
      }
      SlotConserved(s, j.value, Reaped(z), s');
    } else if s' != s {
      assert Equipped(s.procs[p]) by { IsEquipped(s, p); }
      SlotConserved(s, p, s'.procs[p], s');
    }
  }

  lemma IsEquipped(s: State, i: nat)
    requires Conserved(s) && i < |s.procs|
    ensures Equipped(s.procs[i])
  {
  }

  lemma ForkFailConserved(s: State, np: nat)
    requires Conserved(s) && Enabled(s, ForkFail(np))
    ensures Conserved(TakeStep(s, ForkFail(np)))
  {
    hide Conserved;
    var s' := TakeStep(s, ForkFail(np));
    forall x: nat
      ensures Freed(s'.freed, x) == Freed(s.freed, x) + Is(s.procs[np].kstack, x)
    {
      FreedMore(s.freed, s.procs[np].kstack, x);
    }
    SlotConserved(s, np, s'.procs[np], s');
  }

  lemma ConservedStep(s: State, step: Step)
    requires Conserved(s) && Family(s) && Enabled(s, step)
    ensures Conserved(TakeStep(s, step))
  {
    hide Conserved;
    match step
    case Exit(p) => ExitConserved(s, p);
    case Wait(p) => WaitConserved(s, p);
    case Wakeup(c) => WakeConserved(s, OnOther(c));
    case ForkFail(np) => ForkFailConserved(s, np);
    case AllocProc(np) => SlotStep(s, step, np);
    case ForkCopy(p, np) => SlotStep(s, step, np);
    case ForkDone(np) => SlotStep(s, step, np);
    case Schedule(p) => SlotStep(s, step, p);
    case Yield(p) => SlotStep(s, step, p);
    case SleepOn(p, _) => SlotStep(s, step, p);
    case Kill(p) => SlotStep(s, step, p);
  }

  lemma SlotStep(s: State, step: Step, i: nat)
    requires Conserved(s) && Family(s) && Enabled(s, step) && i < |s.procs|
    requires step in {AllocProc(i), ForkDone(i), Schedule(i), Yield(i), Kill(i)}
      || (step.SleepOn? && step.p == i) || (step.ForkCopy? && step.np == i)
    ensures Conserved(TakeStep(s, step))
  {
    assert LiveParent(s.procs, s.init, i);
    IsEquipped(s, i);
    hide Conserved, Family;
    var s' := TakeStep(s, step);
    SlotConserved(s, i, s'.procs[i], s');
  }

  lemma {:induction false} InitHeld(ps: Procs, init: nat, x: nat)
    requires forall i :: 0 <= i < |ps| ==>
      ps[i] == if i == init then Proc(RUNNABLE, None, NoChan, false, Some(0), Some(1)) else Blank
    ensures Held(ps, x) == if init < |ps| && x < 2 then 1 else 0
  {
    if ps != [] {
      InitHeld(ps[..|ps| - 1], init, x);
    }
  }

  /** In every run each zombie's stack and page directory are freed exactly once, and nothing leaks: memory
      allocated for a process is held by exactly one slot until it is freed, and never after. */
  lemma {:induction false} FreedExactlyOnce(s0: State, steps: seq<Step>)
    requires Init(s0) && Exec(s0, steps).Some?
    ensures Conserved(Exec(s0, steps).value)
  {
    if steps == [] {
      forall x: nat
        ensures Held(s0.procs, x) == if x < 2 then 1 else 0
      {
        InitHeld(s0.procs, s0.init, x);
      }
    } else {
      var n := |steps| - 1;
      FreedExactlyOnce(s0, steps[..n]);
      NoLostExits(s0, steps[..n]);
      ConservedStep(Exec(s0, steps[..n]).value, steps[n]);
    }
  }

  // ---------- The loops in memory ----------

  class Ptable {
    const proc: array<Proc>
    const init: nat

    ghost predicate Valid()
      reads this
    {
      init < proc.Length
    }

    /** wakeup1. */
    method Wakeup1(chan: Chan)
      modifies proc
      ensures proc[..] == Wake(old(proc[..]), chan)
    {
      for p := 0 to proc.Length
        invariant forall i :: 0 <= i < p ==> proc[i] == Woken(old(proc[i]), chan)
        invariant forall i :: p <= i < proc.Length ==> proc[i] == old(proc[i])
      {
        if proc[p].state == SLEEPING && proc[p].chan == chan {
          proc[p] := proc[p].(state := RUNNABLE);
        }
      }
    }

    /** The table scan of exit. */
    method Exit(cur: nat)
      requires Valid() && cur < proc.Length && proc[cur].state == RUNNING && cur != init
      modifies proc
      ensures proc[..] == AfterExit(old(proc[..]), cur, init)
    {
      ghost var ps := proc[..];
      Wakeup1(ParentChan(proc[cur]));
      ghost var a := proc[..];
      for p := 0 to proc.Length
        invariant proc[..] == Midway(a, cur, init, p)
      {
        ghost var before := proc[..];
        MidwayNext(a, cur, init, p);
        if proc[p].parent == Some(cur) {
          proc[p] := proc[p].(parent := Some(init));
          assert proc[..] == before[p := before[p].(parent := Some(init))];
          if proc[p].state == ZOMBIE {
            Wakeup1(OnProc(init));
          }
        }
      }
      MidwayEnd(ps, a, cur, init);
      ghost var b := proc[..];
      proc[cur] := proc[cur].(state := ZOMBIE);
      assert proc[..] == b[cur := b[cur].(state := ZOMBIE)];
    }

    /** One scan of wait: the zombie child found, if any, and whether there are children. */
    method Scan(cur: nat) returns (found: Option<nat>, havekids: bool)
      requires cur < proc.Length
      ensures found == ZombieFrom(proc[..], cur, 0)
      ensures found.None? ==> havekids == HasKids(proc[..], cur)
    {
      havekids := false;
      var p := 0;
      ghost var ps := proc[..];
      while p < proc.Length
        invariant 0 <= p <= proc.Length && ZombieFrom(ps, cur, 0) == ZombieFrom(ps, cur, p)
        invariant havekids <==> exists i :: 0 <= i < p && ps[i].parent == Some(cur)
      {
        if proc[p].parent == Some(cur) {
          havekids := true;
          assert ps[p].parent == Some(cur);
          if proc[p].state == ZOMBIE {
            found := Some(p);
            return;
          }
        }
        p := p + 1;
      }
      found := None;
    }

    /** One turn of wait's loop: the slot of the child reaped, -1, or asleep. */
    method Wait(cur: nat) returns (r: Waited)
      requires cur < proc.Length
      modifies proc
      ensures Decided(old(proc[..]), cur, r)
      ensures proc[..] == AfterWait(State(old(proc[..]), init, 0, []), cur).procs
    {
      var found, havekids := Scan(cur);
      ghost var ps := proc[..];
      if found.Some? {
        var p := found.value;
        proc[p] := proc[p].(kstack := None, parent := None, killed := false, state := UNUSED);
        r := Child(p);
        assert proc[..] == ps[p := Reaped(ps[p])];
      } else if !havekids || proc[cur].killed {
        r := NoChild;
      } else {
        proc[cur] := proc[cur].(chan := OnProc(cur), state := SLEEPING);
        r := Asleep;
        assert proc[..] == ps[cur := ps[cur].(state := SLEEPING, chan := OnProc(cur))];
      }
    }
  }

  datatype Waited = Child(slot: nat) | NoChild | Asleep

  /** What one turn comes to, from the table. */
  predicate Decided(ps: Procs, p: nat, r: Waited)
    requires p < |ps|
  {
    var zombie := exists j :: 0 <= j < |ps| && ps[j].parent == Some(p) && ps[j].state == ZOMBIE;
    var child := exists j :: 0 <= j < |ps| && ps[j].parent == Some(p);
    && (r.Child? <==> zombie)
    && (r.Child? ==> r.slot < |ps| && ps[r.slot].parent == Some(p) && ps[r.slot].state == ZOMBIE)
    && (r.NoChild? <==> !zombie && (!child || ps[p].killed))
    && (r.Asleep? <==> !zombie && child && !ps[p].killed)
  }

  /** exit's scan after p slots: those children are handed over, and init is awake if one was a zombie. */
  function Midway(a: Procs, cur: nat, init: nat, p: nat): (r: Procs)
    requires p <= |a|
    ensures |r| == |a|
  {
    var b := seq(|a|, i requires 0 <= i < |a| =>
      if i < p && a[i].parent == Some(cur) then a[i].(parent := Some(init)) else a[i]);
    if exists i :: 0 <= i < p && a[i].parent == Some(cur) && a[i].state == ZOMBIE then Wake(b, OnProc(init)) else b
  }

  lemma MidwayNext(a: Procs, cur: nat, init: nat, p: nat)
    requires p < |a| && cur != init
    ensures var r := Midway(a, cur, init, p);
      var q := if r[p].parent == Some(cur) then r[p := r[p].(parent := Some(init))] else r;
      Midway(a, cur, init, p + 1) ==
        if r[p].parent == Some(cur) && r[p].state == ZOMBIE then Wake(q, OnProc(init)) else q
  {
    var r := Midway(a, cur, init, p);
    assert r[p].parent == a[p].parent && (r[p].state == ZOMBIE <==> a[p].state == ZOMBIE);
    var any := exists i :: 0 <= i < p && a[i].parent == Some(cur) && a[i].state == ZOMBIE;
    var now := a[p].parent == Some(cur) && a[p].state == ZOMBIE;
    assert (exists i :: 0 <= i < p + 1 && a[i].parent == Some(cur) && a[i].state == ZOMBIE) <==> any || now;
  }

  lemma MidwayEnd(ps: Procs, a: Procs, cur: nat, init: nat)
    requires cur < |ps| && a == Wake(ps, ParentChan(ps[cur]))
    ensures var b := Midway(a, cur, init, |a|); AfterExit(ps, cur, init) == b[cur := b[cur].(state := ZOMBIE)]
  {
    assert forall i :: 0 <= i < |a| ==>
      a[i].parent == ps[i].parent && (a[i].state == ZOMBIE <==> ps[i].state == ZOMBIE);
    var b := seq(|a|, i requires 0 <= i < |a| =>
      if i < |a| && a[i].parent == Some(cur) then a[i].(parent := Some(init)) else a[i]);
    assert b == Adopt(a, cur, init);
  }
}
