/** The pipe: a ring of PIPESIZE bytes behind two 32-bit counters, and the sleep/wakeup protocol around it.

    A step is what one thread does between two points where another could take the pipe's lock, or one turn
    of a loop while it holds the lock; a run is any sequence of enabled steps. */
module Pipe {
  import opened Options

  const PIPESIZE: nat := 512
  const WRAP: nat := 0x1_0000_0000

  type Byte = x: int | 0 <= x < 256

  // ---------- The ring ----------

  /** The ring holds what was accepted and not yet delivered, although the counters wrap. */
  ghost predicate Ring(data: seq<Byte>, nread: nat, nwrite: nat, accepted: seq<Byte>, delivered: seq<Byte>)
  {
    && |data| == PIPESIZE
    && nwrite == |accepted| % WRAP && nread == |delivered| % WRAP
    && |delivered| <= |accepted| <= |delivered| + PIPESIZE
    && delivered == accepted[..|delivered|]
    && forall k :: |delivered| <= k < |accepted| ==> data[k % PIPESIZE] == accepted[k]
  }

  predicate Full(nread: nat, nwrite: nat)
  {
    nwrite == (nread + PIPESIZE) % WRAP
  }

  predicate Empty(nread: nat, nwrite: nat)
  {
    nread == nwrite
  }

  /** The tests the code makes on the wrapped counters mean what they should. */
  lemma TestsAreRight(data: seq<Byte>, nread: nat, nwrite: nat, accepted: seq<Byte>, delivered: seq<Byte>)
    requires Ring(data, nread, nwrite, accepted, delivered)
    ensures Full(nread, nwrite) <==> |accepted| == |delivered| + PIPESIZE
    ensures Empty(nread, nwrite) <==> |accepted| == |delivered|
  {
  }

  lemma SlotOf(k: nat)
    ensures k % WRAP % PIPESIZE == k % PIPESIZE
  {
    var q := k / WRAP;
    assert k == WRAP * q + k % WRAP;
    assert WRAP == PIPESIZE * 0x80_0000;
    assert k == PIPESIZE * (0x80_0000 * q) + k % WRAP;
  }

  lemma Put(data: seq<Byte>, nread: nat, nwrite: nat, accepted: seq<Byte>, delivered: seq<Byte>, x: Byte)
    requires Ring(data, nread, nwrite, accepted, delivered) && !Full(nread, nwrite)
    ensures Ring(data[nwrite % PIPESIZE := x], nread, (nwrite + 1) % WRAP, accepted + [x], delivered)
  {
    TestsAreRight(data, nread, nwrite, accepted, delivered);
    SlotOf(|accepted|);
    Advances(|accepted|);
    var data', acc' := data[|accepted| % PIPESIZE := x], accepted + [x];
    assert acc'[..|delivered|] == accepted[..|delivered|];
    hide Full;
    forall k | |delivered| <= k < |acc'|
      ensures data'[k % PIPESIZE] == acc'[k]
    {
      if k < |accepted| {
        SlotsDiffer(k, |accepted|);
        assert data[k % PIPESIZE] == accepted[k];
      }
    }
  }

  lemma Advances(k: nat)
    ensures (k % WRAP + 1) % WRAP == (k + 1) % WRAP
  {
  }

  lemma SlotsDiffer(j: nat, k: nat)
    requires j < k < j + PIPESIZE
    ensures j % PIPESIZE != k % PIPESIZE
  {
  }

  lemma Get(data: seq<Byte>, nread: nat, nwrite: nat, accepted: seq<Byte>, delivered: seq<Byte>)
    requires Ring(data, nread, nwrite, accepted, delivered) && !Empty(nread, nwrite)
    ensures nread % PIPESIZE < |data|
    ensures Ring(data, (nread + 1) % WRAP, nwrite, accepted, delivered + [data[nread % PIPESIZE]])
  {
    SlotOf(|delivered|);
    Advances(|delivered|);
    assert |delivered| < |accepted|;
    assert data[|delivered| % PIPESIZE] == accepted[|delivered|];
    assert delivered + [accepted[|delivered|]] == accepted[..|delivered| + 1];
  }

  // ---------- The protocol ----------

  /** Where a thread is. The states ending in Sleep wait for a wakeup, those ending in Wake for the lock. */
  datatype Thread =
    | WLoop(call: nat, addr: seq<Byte>, i: nat)   // holds the lock, at the for loop of pipewrite
    | WSleep(call: nat, addr: seq<Byte>, i: nat)  // sleeping on nwrite
    | WWake(call: nat, addr: seq<Byte>, i: nat)
    | RWait(n: nat)                               // holds the lock, at the while loop of piperead
    | RSleep(n: nat)                              // sleeping on nread
    | RWake(n: nat)
    | RCopy(n: nat, buf: seq<Byte>)               // holds the lock, at the for loop of piperead

  type Threads = map<nat, Thread>

  /** `accepted` and `delivered` record every byte put in and taken out, `results` the buffers piperead returned and
      `asked` the sizes it was called with. `calls` are the buffers pipewrite was called with, `origin` says which call
      put in each byte, and `done` which calls returned, and whether with their n or with -1. */
  datatype State = State(data: seq<Byte>, nread: nat, nwrite: nat, readopen: bool, writeopen: bool,
                         holder: Option<nat>, threads: Threads, killed: set<nat>,
                         accepted: seq<Byte>, delivered: seq<Byte>, results: seq<seq<Byte>>, asked: seq<nat>,
                         calls: seq<seq<Byte>>, origin: seq<nat>, done: map<nat, bool>)

  datatype Step =
    | CallWrite(t: nat, addr: seq<Byte>)
    | CallRead(t: nat, n: nat)
    | Relock(t: nat)                          // a woken thread gets the lock back
    | Run(t: nat)                             // the holder does one turn
    | Close(writable: bool)
    | Kill(t: nat)

  predicate Writing(th: Thread)
  {
    th.WLoop? || th.WSleep? || th.WWake?
  }

  predicate Holding(th: Thread)
  {
    th.WLoop? || th.RWait? || th.RCopy?
  }

  /** A file descriptor in use is open: an end is closed only when no thread is inside a call on it. */
  predicate Enabled(s: State, step: Step)
  {
    match step
    case CallWrite(t, _) => s.holder.None? && t !in s.threads && s.writeopen
    case CallRead(t, _) => s.holder.None? && t !in s.threads && s.readopen
    case Relock(t) => s.holder.None? && t in s.threads && (s.threads[t].WWake? || s.threads[t].RWake?)
    case Run(t) => s.holder == Some(t) && t in s.threads && Holding(s.threads[t]) && |s.data| == PIPESIZE
    case Close(w) =>
      && s.holder.None? && (if w then s.writeopen else s.readopen)
      && forall t :: t in s.threads ==> Writing(s.threads[t]) != w
    case Kill(t) => true
  }

  function WakeReaders(ts: Threads): (r: Threads)
  {
    map t | t in ts :: if ts[t].RSleep? then RWake(ts[t].n) else ts[t]
  }

  function WakeWriters(ts: Threads): (r: Threads)
  {
    map t | t in ts :: if ts[t].WSleep? then WWake(ts[t].call, ts[t].addr, ts[t].i) else ts[t]
  }

  function WithThread(s: State, t: nat, th: Thread): (s': State)
  {
    s.(threads := s.threads[t := th])
  }

  /** The call returns and the lock is released. */
  function Return(s: State, t: nat): (s': State)
  {
    s.(threads := s.threads - {t}, holder := None)
  }

  function RunWriter(s: State, t: nat, call: nat, addr: seq<Byte>, i: nat): (s': State)
    requires |s.data| == PIPESIZE
  {
    if i >= |addr| then
      Return(s.(threads := WakeReaders(s.threads), done := s.done[call := true]), t)
    else if Full(s.nread, s.nwrite) then
      if !s.readopen || t in s.killed then Return(s.(done := s.done[call := false]), t)
      else WithThread(s.(threads := WakeReaders(s.threads), holder := None), t, WSleep(call, addr, i))
    else
      WithThread(s.(data := s.data[s.nwrite % PIPESIZE := addr[i]], nwrite := (s.nwrite + 1) % WRAP,
                    accepted := s.accepted + [addr[i]], origin := s.origin + [call]), t, WLoop(call, addr, i + 1))
  }

  function RunReader(s: State, t: nat, n: nat): (s': State)
  {
    if Empty(s.nread, s.nwrite) && s.writeopen then
      if t in s.killed then Return(s, t) else WithThread(s.(holder := None), t, RSleep(n))
    else
      WithThread(s, t, RCopy(n, []))
  }

  function RunCopy(s: State, t: nat, n: nat, buf: seq<Byte>): (s': State)
    requires |s.data| == PIPESIZE
  {
    if |buf| >= n || Empty(s.nread, s.nwrite) then
      Return(s.(threads := WakeWriters(s.threads), results := s.results + [buf], asked := s.asked + [n]), t)
    else
      var x := s.data[s.nread % PIPESIZE];
      WithThread(s.(nread := (s.nread + 1) % WRAP, delivered := s.delivered + [x]), t, RCopy(n, buf + [x]))
  }

  /** Where sleep returns to. */
  function Awake(th: Thread): (r: Thread)
    requires th.WWake? || th.RWake?
  {
    if th.WWake? then WLoop(th.call, th.addr, th.i) else RWait(th.n)
  }

  function TakeStep(s: State, step: Step): (s': State)
    requires Enabled(s, step)
  {
    match step
    case CallWrite(t, addr) =>
      WithThread(s.(holder := Some(t), calls := s.calls + [addr]), t, WLoop(|s.calls|, addr, 0))
    case CallRead(t, n) => WithThread(s.(holder := Some(t)), t, RWait(n))
    case Relock(t) =>
      WithThread(s.(holder := Some(t)), t, Awake(s.threads[t]))
    case Run(t) =>
      (match s.threads[t]
       case WLoop(call, addr, i) => RunWriter(s, t, call, addr, i)
       case RWait(n) => RunReader(s, t, n)
       case RCopy(n, buf) => RunCopy(s, t, n, buf))
    case Close(w) =>
      if w then s.(writeopen := false, threads := WakeReaders(s.threads))
      else s.(readopen := false, threads := WakeWriters(s.threads))
    case Kill(t) =>
      s.(killed := s.killed + {t},
         threads := if t !in s.threads then s.threads
                    else if s.threads[t].WSleep? then
                      s.threads[t := WWake(s.threads[t].call, s.threads[t].addr, s.threads[t].i)]
                    else if s.threads[t].RSleep? then s.threads[t := RWake(s.threads[t].n)]
                    else s.threads)
  }

  function Exec(s: State, steps: seq<Step>): (r: Option<State>)
  {
    if steps == [] then Some(s) else
      match Exec(s, steps[..|steps| - 1])
      case None => None
      case Some(m) => if Enabled(m, steps[|steps| - 1]) then Some(TakeStep(m, steps[|steps| - 1])) else None
  }

  predicate Init(s: State)
  {
    |s.data| == PIPESIZE && s == State(s.data, 0, 0, true, true, None, map[], {}, [], [], [], [], [], [], map[])
  }

  // ---------- First in, first out ----------

  function Flat(bufs: seq<seq<Byte>>): (r: seq<Byte>)
  {
    if bufs == [] then [] else Flat(bufs[..|bufs| - 1]) + bufs[|bufs| - 1]
  }

  lemma FlatAppend(bufs: seq<seq<Byte>>, b: seq<Byte>)
    ensures Flat(bufs + [b]) == Flat(bufs) + b
  {
    assert (bufs + [b])[..|bufs|] == bufs;
  }

  /** What the reader holding the lock has copied so far. */
  function InHand(s: State): (buf: seq<Byte>)
  {
    if s.holder.Some? && s.holder.value in s.threads && s.threads[s.holder.value].RCopy?
    then s.threads[s.holder.value].buf
    else []
  }

  ghost predicate Fifo(s: State)
  {
    && Ring(s.data, s.nread, s.nwrite, s.accepted, s.delivered)
    && Flat(s.results) + InHand(s) == s.delivered
    && (forall t :: t in s.threads && Holding(s.threads[t]) ==> s.holder == Some(t))
  }

  lemma FifoWriter(s: State, t: nat, call: nat, addr: seq<Byte>, i: nat)
    requires Fifo(s) && s.holder == Some(t) && t in s.threads && s.threads[t] == WLoop(call, addr, i)
    requires |s.data| == PIPESIZE
    ensures Fifo(RunWriter(s, t, call, addr, i))
  {
    hide Ring, Full, Flat;
    if i < |addr| && !Full(s.nread, s.nwrite) {
      Put(s.data, s.nread, s.nwrite, s.accepted, s.delivered, addr[i]);
    }
  }

  lemma FifoReader(s: State, t: nat, n: nat)
    requires Fifo(s) && s.holder == Some(t) && t in s.threads && s.threads[t] == RWait(n)
    ensures Fifo(RunReader(s, t, n))
  {
    hide Ring, Empty, Flat;
  }

  lemma FifoCopy(s: State, t: nat, n: nat, buf: seq<Byte>)
    requires Fifo(s) && s.holder == Some(t) && t in s.threads && s.threads[t] == RCopy(n, buf) && |s.data| == PIPESIZE
    ensures Fifo(RunCopy(s, t, n, buf))
  {
    hide Ring, Empty, Flat;
    FlatAppend(s.results, buf);
    if |buf| < n && !Empty(s.nread, s.nwrite) {
      Get(s.data, s.nread, s.nwrite, s.accepted, s.delivered);
      var x := s.data[s.nread % PIPESIZE];
      assert Flat(s.results) + (buf + [x]) == Flat(s.results) + buf + [x];
    }
  }

  lemma FifoRun(s: State, t: nat)
    requires Fifo(s) && Enabled(s, Run(t))
    ensures Fifo(TakeStep(s, Run(t)))
  {
    hide Fifo, RunWriter, RunReader, RunCopy;
    match s.threads[t]
    case WLoop(call, addr, i) => FifoWriter(s, t, call, addr, i);
    case RWait(n) => FifoReader(s, t, n);
    case RCopy(n, buf) => FifoCopy(s, t, n, buf);
  }

  lemma FifoStep(s: State, step: Step)
    requires Fifo(s) && Enabled(s, step)
    ensures Fifo(TakeStep(s, step))
  {
    hide Ring, Flat, RunWriter, RunReader, RunCopy;
    if step.Run? {
      FifoRun(s, step.t);
    }
  }

  /** In every run, also with kills and wrapped counters, the buffers readers got back joined together are a
      prefix of the bytes writers put in, and at most PIPESIZE bytes are in between. */
  lemma {:induction false} PipeIsFifo(s0: State, steps: seq<Step>)
    requires Init(s0) && Exec(s0, steps).Some?
    ensures var s := Exec(s0, steps).value;
      && Fifo(s) && s.delivered <= s.accepted && |s.accepted| - |s.delivered| <= PIPESIZE
      && Flat(s.results) <= s.accepted
  {
    if steps == [] {
      assert Flat([]) == [];
    } else {
      PipeIsFifo(s0, steps[..|steps| - 1]);
      FifoStep(Exec(s0, steps[..|steps| - 1]).value, steps[|steps| - 1]);
    }
    var s := Exec(s0, steps).value;
    assert Flat(s.results) <= s.delivered;
  }

  // ---------- No lost wakeups ----------

  ghost predicate NoReaderSleeps(s: State)
  {
    forall t :: t in s.threads ==> !s.threads[t].RSleep?
  }

  ghost predicate NoWriterSleeps(s: State)
  {
    forall t :: t in s.threads ==> !s.threads[t].WSleep?
  }

  /** A sleeper is justified: readers sleep only on an empty open pipe, writers only on a full one. */
  ghost predicate ReadersJustified(s: State)
  {
    NoReaderSleeps(s) || (Empty(s.nread, s.nwrite) && s.writeopen)
  }

  ghost predicate WritersJustified(s: State)
  {
    NoWriterSleeps(s) || (Full(s.nread, s.nwrite) && s.readopen)
  }

  /** A thread inside a call keeps its end open. */
  ghost predicate EndsOpen(s: State)
  {
    forall t :: t in s.threads ==> if Writing(s.threads[t]) then s.writeopen else s.readopen
  }

  /** While a writer holds the lock it may owe the readers a wakeup, and the other way round. */
  ghost predicate Justified(s: State)
  {
    && EndsOpen(s)
    && match s.holder
       case None => ReadersJustified(s) && WritersJustified(s)
       case Some(t) =>
         && t in s.threads && Holding(s.threads[t])
         && (s.threads[t].WLoop? || ReadersJustified(s))
         && (s.threads[t].RCopy? || WritersJustified(s))
         && (s.threads[t].RCopy? ==> NoReaderSleeps(s))
  }

  /** A killed writer finds the pipe full and returns, and a reader sleeps. */
  ghost predicate GivesUp(s: State, step: Step)
  {
    && step.Run? && step.t in s.threads && s.threads[step.t].WLoop? && step.t in s.killed
    && s.threads[step.t].i < |s.threads[step.t].addr| && Full(s.nread, s.nwrite) && !NoReaderSleeps(s)
  }

  lemma FullNotEmpty(s: State)
    requires Fifo(s)
    ensures !(Full(s.nread, s.nwrite) && Empty(s.nread, s.nwrite))
  {
    TestsAreRight(s.data, s.nread, s.nwrite, s.accepted, s.delivered);
    hide Ring, Flat;
  }

  /** pipewrite's turn leaves sleepers justified unless it gives up. */
  lemma JustifiedWriter(s: State, t: nat)
    requires Fifo(s) && Justified(s) && s.holder == Some(t) && t in s.threads && s.threads[t].WLoop?
    requires |s.data| == PIPESIZE
    ensures GivesUp(s, Run(t)) <==> !Justified(TakeStep(s, Run(t)))
  {
    FullNotEmpty(s);
    hide Fifo, Full, Empty;
    var addr, i := s.threads[t].addr, s.threads[t].i;
    var s' := RunWriter(s, t, s.threads[t].call, addr, i);
    if i < |addr| && !Full(s.nread, s.nwrite) {
      assert NoWriterSleeps(s');
    } else if GivesUp(s, Run(t)) {
      var r :| r in s.threads && s.threads[r].RSleep?;
      assert r in s'.threads && s'.threads[r].RSleep?;
    }
  }

  lemma JustifiedReader(s: State, t: nat)
    requires Justified(s) && s.holder == Some(t) && t in s.threads && s.threads[t].RWait?
    ensures Justified(RunReader(s, t, s.threads[t].n))
  {
    hide Full, Empty;
  }

  lemma JustifiedCopy(s: State, t: nat)
    requires Justified(s) && s.holder == Some(t) && t in s.threads && s.threads[t].RCopy? && |s.data| == PIPESIZE
    ensures Justified(RunCopy(s, t, s.threads[t].n, s.threads[t].buf))
  {
    hide Full, Empty;
  }

  lemma JustifiedCall(s: State, t: nat, th: Thread)
    requires Justified(s) && s.holder.None? && (th.WLoop? || th.RWait?)
    requires if th.WLoop? then s.writeopen else s.readopen
    requires t !in s.threads || s.threads[t].WWake? || s.threads[t].RWake?
    ensures Justified(WithThread(s.(holder := Some(t)), t, th))
  {
    hide Full, Empty;
  }

  lemma JustifiedClose(s: State, w: bool)
    requires Justified(s) && Enabled(s, Close(w))
    ensures Justified(TakeStep(s, Close(w)))
  {
    hide Full, Empty;
  }

  lemma JustifiedKill(s: State, t: nat)
    requires Justified(s)
    ensures Justified(TakeStep(s, Kill(t)))
  {
    hide Full, Empty;
  }

  /** One step loses a wakeup exactly when a killed writer gives up beside a sleeping reader. */
  lemma JustifiedStep(s: State, step: Step)
    requires Fifo(s) && Justified(s) && Enabled(s, step)
    ensures GivesUp(s, step) <==> !Justified(TakeStep(s, step))
  {
    match step
    case CallWrite(t, addr) => JustifiedCall(s.(calls := s.calls + [addr]), t, WLoop(|s.calls|, addr, 0));
    case CallRead(t, n) => JustifiedCall(s, t, RWait(n));
    case Relock(t) => JustifiedCall(s, t, Awake(s.threads[t]));
    case Run(t) =>
      hide Fifo, Justified;
      if s.threads[t].WLoop? {
        JustifiedWriter(s, t);
      } else if s.threads[t].RWait? {
        JustifiedReader(s, t);
      } else {
        JustifiedCopy(s, t);
      }
    case Close(w) => JustifiedClose(s, w);
    case Kill(t) => JustifiedKill(s, t);
  }

  /** The k-th state of a run. */
  function StateAt(s0: State, steps: seq<Step>, k: nat): (s: State)
    requires k <= |steps| && Exec(s0, steps).Some?
  {
    ExecPrefix(s0, steps, k);
    Exec(s0, steps[..k]).value
  }

  lemma {:induction false} ExecPrefix(s0: State, steps: seq<Step>, k: nat)
    requires k <= |steps| && Exec(s0, steps).Some?
    ensures Exec(s0, steps[..k]).Some?
    ensures k < |steps| ==>
      Enabled(Exec(s0, steps[..k]).value, steps[k]) &&
      Exec(s0, steps[..k + 1]) == Some(TakeStep(Exec(s0, steps[..k]).value, steps[k]))
    decreases |steps|
  {
    assert steps[..|steps|] == steps;
    if k < |steps| {
      var n := |steps| - 1;
      if k < n {
        ExecPrefix(s0, steps[..n], k);
        assert steps[..n][..k] == steps[..k] && steps[..n][..k + 1] == steps[..k + 1];
      } else {
        assert steps[..k + 1] == steps;
      }
    }
  }

  /** Some step of the run is a killed writer giving up beside a sleeping reader. */
  ghost predicate SomeoneGivesUp(s0: State, steps: seq<Step>)
    requires Exec(s0, steps).Some?
  {
    exists k :: 0 <= k < |steps| && GivesUp(StateAt(s0, steps, k), steps[k])
  }

  /** When the lock is free, a reader sleeps only if the pipe is empty with its write end open, a writer only if it is
      full with its read end open, and never both. */
  ghost predicate NoneLost(s: State)
  {
    s.holder.None? ==>
      && (!NoReaderSleeps(s) ==> |s.accepted| == |s.delivered| && s.writeopen)
      && (!NoWriterSleeps(s) ==> |s.accepted| == |s.delivered| + PIPESIZE && s.readopen)
      && (NoReaderSleeps(s) || NoWriterSleeps(s))
  }

  lemma JustifiedMeans(s: State)
    requires Fifo(s) && Justified(s)
    ensures NoneLost(s)
  {
    TestsAreRight(s.data, s.nread, s.nwrite, s.accepted, s.delivered);
    hide Ring, Flat, Full, Empty;
  }

  lemma GivingUpLoses(s: State, step: Step)
    requires Fifo(s) && Enabled(s, step) && GivesUp(s, step)
    ensures !NoneLost(TakeStep(s, step))
  {
    TestsAreRight(s.data, s.nread, s.nwrite, s.accepted, s.delivered);
    hide Ring, Flat, Empty;
    var r :| r in s.threads && s.threads[r].RSleep?;
    assert r in TakeStep(s, step).threads;
  }

  lemma {:induction false} JustifiedUpTo(s0: State, steps: seq<Step>, k: nat)
    requires Init(s0) && Exec(s0, steps).Some? && k <= |steps|
    requires forall j :: 0 <= j < k ==> !GivesUp(StateAt(s0, steps, j), steps[j])
    ensures Justified(StateAt(s0, steps, k))
  {
    if k == 0 {
      assert steps[..0] == [];
    } else {
      JustifiedUpTo(s0, steps, k - 1);
      ExecPrefix(s0, steps, k - 1);
      PipeIsFifo(s0, steps[..k - 1]);
      hide Fifo, Justified, GivesUp, Enabled, Exec;
      JustifiedStep(StateAt(s0, steps, k - 1), steps[k - 1]);
    }
  }

  /** Wakeups are lost in a run exactly when a killed writer gives up on a full pipe beside a sleeping reader. */
  lemma LostIffGivenUp(s0: State, steps: seq<Step>)
    requires Init(s0) && Exec(s0, steps).Some?
    ensures SomeoneGivesUp(s0, steps) <==> exists k :: 0 <= k <= |steps| && !NoneLost(StateAt(s0, steps, k))
  {
    hide Exec, Enabled, Fifo, Justified, GivesUp, NoneLost;
    if SomeoneGivesUp(s0, steps) {
      var k :| 0 <= k < |steps| && GivesUp(StateAt(s0, steps, k), steps[k]);
      ExecPrefix(s0, steps, k);
      PipeIsFifo(s0, steps[..k]);
      GivingUpLoses(StateAt(s0, steps, k), steps[k]);
      assert !NoneLost(StateAt(s0, steps, k + 1));
    } else {
      forall k | 0 <= k <= |steps|
        ensures NoneLost(StateAt(s0, steps, k))
      {
        JustifiedUpTo(s0, steps, k);
        ExecPrefix(s0, steps, k);
        PipeIsFifo(s0, steps[..k]);
        JustifiedMeans(StateAt(s0, steps, k));
      }
    }
  }

  predicate NoKills(steps: seq<Step>)
  {
    forall i :: 0 <= i < |steps| ==> !steps[i].Kill?
  }

  lemma {:induction false} NobodyKilled(s0: State, steps: seq<Step>)
    requires Init(s0) && NoKills(steps) && Exec(s0, steps).Some?
    ensures Exec(s0, steps).value.killed == {}
  {
    if steps != [] {
      NobodyKilled(s0, steps[..|steps| - 1]);
      hide Exec, WakeReaders, WakeWriters, Full, Empty;
    }
  }

  /** In particular none is lost in a run without kills. */
  lemma NoLostWakeups(s0: State, steps: seq<Step>)
    requires Init(s0) && NoKills(steps) && Exec(s0, steps).Some?
    ensures NoneLost(Exec(s0, steps).value)
  {
    forall k | 0 <= k < |steps|
      ensures !GivesUp(StateAt(s0, steps, k), steps[k])
    {
      ExecPrefix(s0, steps, k);
      NobodyKilled(s0, steps[..k]);
    }
    assert steps[..|steps|] == steps;
    hide Exec, GivesUp, NoneLost;
    LostIffGivenUp(s0, steps);
    assert NoneLost(StateAt(s0, steps, |steps|));
  }

  // ---------- A kill can lose a wakeup ----------

  ghost predicate Reached(s0: State, s: State)
  {
    exists steps :: Exec(s0, steps) == Some(s)
  }

  lemma Extend(s0: State, s: State, step: Step)
    requires Reached(s0, s) && Enabled(s, step)
    ensures Reached(s0, TakeStep(s, step))
  {
    var steps :| Exec(s0, steps) == Some(s);
    assert (steps + [step])[..|steps|] == steps;
    assert Exec(s0, steps + [step]) == Some(TakeStep(s, step));
  }

  /** Reader 0 sleeps while writer 1, already killed, has put k bytes of addr into the pipe. */
  predicate Filling(s: State, addr: seq<Byte>, k: nat)
  {
    && |s.data| == PIPESIZE && s.nread == 0 && s.nwrite == k && s.holder == Some(1) && s.killed == {1}
    && s.threads == map[0 := RSleep(1), 1 := WLoop(0, addr, k)] && s.readopen && s.writeopen
  }

  lemma FillOne(s: State, addr: seq<Byte>, k: nat)
    requires Filling(s, addr, k) && k < PIPESIZE < |addr|
    ensures Enabled(s, Run(1)) && Filling(TakeStep(s, Run(1)), addr, k + 1)
  {
  }

  lemma {:induction false} Fill(s0: State, s: State, addr: seq<Byte>, k: nat) returns (s': State)
    requires Reached(s0, s) && Filling(s, addr, 0) && k <= PIPESIZE < |addr|
    ensures Reached(s0, s') && Filling(s', addr, k)
  {
    if k == 0 {
      s' := s;
    } else {
      hide Filling, Enabled, TakeStep;
      var m := Fill(s0, s, addr, k - 1);
      FillOne(m, addr, k - 1);
      Extend(s0, m, Run(1));
      s' := TakeStep(m, Run(1));
    }
  }

  /** A writer that was killed gives up on a full pipe without waking the reader it filled it for: the lock is
      free, the pipe is full, and the reader sleeps. */
  lemma KilledWriterLosesWakeup(s0: State) returns (s: State)
    requires Init(s0)
    ensures Reached(s0, s) && s.holder.None? && Full(s.nread, s.nwrite) && s.threads == map[0 := RSleep(1)]
    ensures s.writeopen
  {
    var addr: seq<Byte> := seq(PIPESIZE + 1, k => 0);
    assert Exec(s0, []) == Some(s0);
    Extend(s0, s0, CallRead(0, 1));
    var s1 := TakeStep(s0, CallRead(0, 1));
    Extend(s0, s1, Run(0));
    var s2 := TakeStep(s1, Run(0));
    Extend(s0, s2, CallWrite(1, addr));
    var s3 := TakeStep(s2, CallWrite(1, addr));
    Extend(s0, s3, Kill(1));
    var s4 := TakeStep(s3, Kill(1));
    assert s4.threads == map[0 := RSleep(1), 1 := WLoop(0, addr, 0)];
    var s5 := Fill(s0, s4, addr, PIPESIZE);
    Extend(s0, s5, Run(1));
    s := TakeStep(s5, Run(1));
    assert s.threads == map[0 := RSleep(1)];
  }

  // ---------- The buffer in memory ----------

  /** struct pipe's data and counters, with the copy loops of pipewrite and piperead. */
  class Buffer {
    const data: array<Byte>
    var nread: nat
    var nwrite: nat
    ghost var accepted: seq<Byte>
    ghost var delivered: seq<Byte>

    ghost predicate Valid()
      reads this, data
    {
      Ring(data[..], nread, nwrite, accepted, delivered)
    }

    constructor ()
      ensures Valid() && fresh(data) && accepted == [] && delivered == []
    {
      data := new Byte[PIPESIZE](i => 0);
      nread, nwrite, accepted, delivered := 0, 0, [], [];
    }

    /** pipewrite from byte i on: copies until the pipe is full or the data is out. */
    method Fill(addr: seq<Byte>, i: nat) returns (j: nat)
      requires Valid() && i <= |addr|
      modifies this`nwrite, this`accepted, data
      ensures Valid() && i <= j <= |addr| && accepted == old(accepted) + addr[i..j]
      ensures j < |addr| ==> |accepted| == |delivered| + PIPESIZE
    {
      hide Ring, Full;
      j := i;
      while j < |addr| && !Full(nread, nwrite)
        invariant i <= j <= |addr| && Valid() && accepted == old(accepted) + addr[i..j]
      {
        Put(data[..], nread, nwrite, accepted, delivered, addr[j]);
        InArray(data[..], nread, nwrite, accepted, delivered);
        data[nwrite % PIPESIZE] := addr[j];
        nwrite := (nwrite + 1) % WRAP;
        accepted := accepted + [addr[j]];
        j := j + 1;
      }
      TestsAreRight(data[..], nread, nwrite, accepted, delivered);
    }

    /** The copy loop of piperead: at most n bytes, in the order they were put in. */
    method Drain(n: nat) returns (buf: seq<Byte>)
      requires Valid()
      modifies this`nread, this`delivered
      ensures Valid() && |buf| <= n && delivered == old(delivered) + buf && delivered <= accepted
      ensures |buf| < n ==> delivered == accepted
    {
      hide Ring, Empty;
      buf := [];
      while |buf| < n && !Empty(nread, nwrite)
        invariant |buf| <= n && Valid() && delivered == old(delivered) + buf
        decreases n - |buf|
      {
        Get(data[..], nread, nwrite, accepted, delivered);
        var x := data[nread % PIPESIZE];
        nread := (nread + 1) % WRAP;
        delivered := delivered + [x];
        buf := buf + [x];
      }
      Prefix(data[..], nread, nwrite, accepted, delivered);
    }
  }

  lemma InArray(data: seq<Byte>, nread: nat, nwrite: nat, accepted: seq<Byte>, delivered: seq<Byte>)
    requires Ring(data, nread, nwrite, accepted, delivered)
    ensures |data| == PIPESIZE
  {
  }

  lemma Prefix(data: seq<Byte>, nread: nat, nwrite: nat, accepted: seq<Byte>, delivered: seq<Byte>)
    requires Ring(data, nread, nwrite, accepted, delivered)
    ensures delivered <= accepted && (Empty(nread, nwrite) ==> delivered == accepted)
  {
    TestsAreRight(data, nread, nwrite, accepted, delivered);
  }
}
