/** The interrupt-driven disk driver and the synchronous one it stands in for.

    A step is a critical section under idelock, a change the owner of a buffer makes to it, or the device
    carrying out the active write. `events` is the history in terms of the synchronous driver. */
module Ide {
  import opened Blocks
  import opened Options

  datatype Buf = Buf(valid: bool, dirty: bool, blockno: nat, data: Block)

  /** memide's iderw: the whole transfer at once. */
  function SyncDisk(disk: seq<Block>, b: Buf): (r: seq<Block>)
  {
    if b.dirty && b.blockno < |disk| then disk[b.blockno := b.data] else disk
  }

  function SyncBuf(disk: seq<Block>, b: Buf): (r: Buf)
  {
    if b.dirty then b.(valid := true, dirty := false)
    else if b.blockno < |disk| then b.(valid := true, data := disk[b.blockno])
    else b
  }

  datatype Event = Change(id: nat, buf: Buf) | Rw(id: nat)

  /** The disk and buffers after a history run by the synchronous driver. */
  datatype Sync = Sync(disk: seq<Block>, bufs: map<nat, Buf>)

  function Replay(start: Sync, es: seq<Event>): (r: Sync)
  {
    if es == [] then start else
      var s := Replay(start, es[..|es| - 1]);
      match es[|es| - 1]
      case Change(i, b) => Sync(s.disk, s.bufs[i := b])
      case Rw(i) =>
        if i in s.bufs then Sync(SyncDisk(s.disk, s.bufs[i]), s.bufs[i := SyncBuf(s.disk, s.bufs[i])]) else s
  }

  lemma ReplayAppend(start: Sync, es: seq<Event>, e: Event)
    ensures Replay(start, es + [e]) ==
      var s := Replay(start, es);
      match e
      case Change(i, b) => Sync(s.disk, s.bufs[i := b])
      case Rw(i) =>
        if i in s.bufs then Sync(SyncDisk(s.disk, s.bufs[i]), s.bufs[i := SyncBuf(s.disk, s.bufs[i])]) else s
  {
    assert (es + [e])[..|es|] == es;
  }

  // ---------- The queued driver ----------

  /** `latch` is what idestart sent to the device for a write; `written` says it has reached the disk. */
  datatype State = State(disk: seq<Block>, bufs: map<nat, Buf>, queue: seq<nat>, latch: Option<Block>, written: bool,
                         waiting: set<nat>, submitted: seq<nat>, served: seq<nat>, events: seq<Event>)

  datatype Step =
    | Modify(id: nat, buf: Buf)      // the holder of the buffer's lock changes it outside iderw
    | Submit(id: nat)                // iderw appends the buffer to the queue
    | DeviceWrite                    // the device carries out the active write
    | Interrupt                      // ideintr
    | Return(id: nat)                // iderw's wait loop ends

  predicate Enabled(s: State, step: Step)
  {
    match step
    case Modify(i, _) => i in s.bufs && i !in s.waiting
    case Submit(i) =>
      && i in s.bufs && i !in s.waiting && !(s.bufs[i].valid && !s.bufs[i].dirty)    // else "nothing to do"
      && s.bufs[i].blockno < |s.disk|                                               // else "incorrect blockno"
    case DeviceWrite => s.queue != [] && s.queue[0] in s.bufs && s.latch.Some? && !s.written
    case Interrupt => s.queue != [] && s.queue[0] in s.bufs && (s.latch.Some? ==> s.written)
    case Return(i) => i in s.waiting && i in s.bufs && s.bufs[i].valid && !s.bufs[i].dirty
  }

  /** idestart on the head of the queue. */
  function Started(s: State): (s': State)
  {
    if s.queue != [] && s.queue[0] in s.bufs && s.bufs[s.queue[0]].dirty then
      s.(latch := Some(s.bufs[s.queue[0]].data), written := false)
    else s.(latch := None, written := false)
  }

  function Submitted(s: State, i: nat): (s': State)
  {
    var s1 := s.(queue := s.queue + [i], waiting := s.waiting + {i}, submitted := s.submitted + [i]);
    if s.queue == [] then Started(s1) else s1
  }

  function Interrupted(s: State): (s': State)
    requires s.queue != [] && s.queue[0] in s.bufs
  {
    var i := s.queue[0];
    var b := s.bufs[i];
    var b1 := if !b.dirty && b.blockno < |s.disk| then b.(data := s.disk[b.blockno]) else b;
    Started(s.(queue := s.queue[1..], bufs := s.bufs[i := b1.(valid := true, dirty := false)],
               served := s.served + [i], events := s.events + [Rw(i)]))
  }

  function TakeStep(s: State, step: Step): (s': State)
    requires Enabled(s, step)
  {
    match step
    case Modify(i, b) => s.(bufs := s.bufs[i := b], events := s.events + [Change(i, b)])
    case Submit(i) => Submitted(s, i)
    case DeviceWrite =>
      var n := s.bufs[s.queue[0]].blockno;
      s.(disk := if n < |s.disk| then s.disk[n := s.latch.value] else s.disk, written := true)
    case Interrupt => Interrupted(s)
    case Return(i) => s.(waiting := s.waiting - {i})
  }

  function Exec(s: State, steps: seq<Step>): (r: Option<State>)
  {
    if steps == [] then Some(s) else
      match Exec(s, steps[..|steps| - 1])
      case None => None
      case Some(m) => if Enabled(m, steps[|steps| - 1]) then Some(TakeStep(m, steps[|steps| - 1])) else None
  }

  predicate Init(s: State)
  {
    s == State(s.disk, s.bufs, [], None, false, {}, [], [], [])
  }

  // ---------- Refinement ----------

  predicate Distinct(q: seq<nat>)
  {
    forall i, j :: 0 <= i < j < |q| ==> q[i] != q[j]
  }

  predicate Pending(s: State, i: nat)
  {
    i in s.waiting && i in s.bufs && s.bufs[i].blockno < |s.disk| && !(s.bufs[i].valid && !s.bufs[i].dirty)
  }

  /** A queued buffer is waited for, and still has something to transfer. */
  ghost predicate Queued(s: State)
  {
    && Distinct(s.queue) && s.submitted == s.served + s.queue
    && (forall k :: 0 <= k < |s.queue| ==> Pending(s, s.queue[k]))
    && (forall i :: i in s.waiting && i in s.bufs && i !in s.queue ==> s.bufs[i].valid && !s.bufs[i].dirty)
  }

  /** What the device was sent is what the buffer still holds. */
  ghost predicate Latched(s: State)
  {
    if s.queue != [] && s.queue[0] in s.bufs && s.bufs[s.queue[0]].dirty then s.latch == Some(s.bufs[s.queue[0]].data)
    else s.latch == None && !s.written
  }

  /** The buffers are those of the synchronous driver, and so is the disk, but for an active write that has
      reached it ahead of its interrupt. */
  ghost predicate Refines(start: Sync, s: State)
  {
    var a := Replay(start, s.events);
    && a.bufs == s.bufs && |a.disk| == |s.disk|
    && s.disk ==
         if s.written && s.queue != [] && s.queue[0] in s.bufs then SyncDisk(a.disk, s.bufs[s.queue[0]]) else a.disk
  }

  ghost predicate Inv(start: Sync, s: State)
  {
    Queued(s) && Latched(s) && Refines(start, s)
  }

  lemma SubmitKeeps(start: Sync, s: State, i: nat)
    requires Inv(start, s) && Enabled(s, Submit(i))
    ensures Inv(start, Submitted(s, i))
  {
    var s' := Submitted(s, i);
    assert i !in s.queue;
    assert s.served + s.queue + [i] == s.served + s'.queue;
    hide Replay;
  }

  lemma PopQueue(q: seq<nat>)
    requires Distinct(q) && q != []
    ensures Distinct(q[1..]) && q[0] !in q[1..] && forall j :: j in q ==> j == q[0] || j in q[1..]
  {
    assert q == [q[0]] + q[1..];
  }

  lemma InterruptFields(s: State)
    requires s.queue != [] && s.queue[0] in s.bufs
    ensures var s', i := Interrupted(s), s.queue[0];
      && s'.queue == s.queue[1..] && s'.waiting == s.waiting && s'.disk == s.disk
      && s'.submitted == s.submitted && s'.served == s.served + [i]
      && s'.bufs.Keys == s.bufs.Keys && s'.bufs[i].valid && !s'.bufs[i].dirty
      && forall j :: j in s.bufs && j != i ==> s'.bufs[j] == s.bufs[j]
  {
  }

  lemma StillPending(s: State, j: nat)
    requires Enabled(s, Interrupt) && Pending(s, j) && j != s.queue[0]
    ensures Pending(Interrupted(s), j)
  {
  }

  lemma InterruptQueued(s: State)
    requires Queued(s) && Enabled(s, Interrupt)
    ensures Queued(Interrupted(s))
  {
    hide Interrupted, Distinct, Pending;
    InterruptFields(s);
    PopQueue(s.queue);
    var s', i := Interrupted(s), s.queue[0];
    assert s.served + s.queue == (s.served + [i]) + s.queue[1..];
    forall k | 0 <= k < |s'.queue|
      ensures Pending(s', s'.queue[k])
    {
      assert Pending(s, s.queue[k + 1]) && s'.queue[k] != i;
      StillPending(s, s'.queue[k]);
    }
  }

  /** The interrupt ends the transfer that the synchronous driver makes at once. */
  lemma InterruptTransfers(s: State, disk: seq<Block>)
    requires Enabled(s, Interrupt) && Latched(s) && |disk| == |s.disk| && s.bufs[s.queue[0]].blockno < |s.disk|
    requires s.disk == if s.written then SyncDisk(disk, s.bufs[s.queue[0]]) else disk
    ensures var s', i := Interrupted(s), s.queue[0];
      && s.disk == SyncDisk(disk, s.bufs[i]) && s'.bufs == s.bufs[i := SyncBuf(disk, s.bufs[i])]
      && s'.disk == s.disk && s'.events == s.events + [Rw(i)] && !s'.written
  {
    var i := s.queue[0];
    assert Interrupted(s).bufs[i] == SyncBuf(disk, s.bufs[i]);
  }

  lemma InterruptRefines(start: Sync, s: State)
    requires Queued(s) && Latched(s) && Refines(start, s) && Enabled(s, Interrupt)
    ensures Refines(start, Interrupted(s))
  {
    assert Pending(s, s.queue[0]);
    hide Replay, Queued, Latched, Interrupted, SyncDisk, SyncBuf;
    ReplayAppend(start, s.events, Rw(s.queue[0]));
    InterruptTransfers(s, Replay(start, s.events).disk);
    SyncSize(Replay(start, s.events).disk, s.bufs[s.queue[0]]);
  }

  lemma SyncSize(disk: seq<Block>, b: Buf)
    ensures |SyncDisk(disk, b)| == |disk|
  {
  }

  lemma InterruptKeeps(start: Sync, s: State)
    requires Inv(start, s) && Enabled(s, Interrupt)
    ensures Inv(start, Interrupted(s))
  {
    InterruptQueued(s);
    InterruptRefines(start, s);
    hide Queued, Refines;
  }

  lemma ModifyKeeps(start: Sync, s: State, i: nat, b: Buf)
    requires Inv(start, s) && Enabled(s, Modify(i, b))
    ensures Inv(start, TakeStep(s, Modify(i, b)))
  {
    ReplayAppend(start, s.events, Change(i, b));
    hide Replay;
  }

  lemma StepKeeps(start: Sync, s: State, step: Step)
    requires Inv(start, s) && Enabled(s, step)
    ensures Inv(start, TakeStep(s, step))
  {
    match step
    case Submit(i) => SubmitKeeps(start, s, i);
    case Interrupt => InterruptKeeps(start, s);
    case Modify(i, b) => ModifyKeeps(start, s, i, b);
    case _ => hide Replay;
  }

  lemma {:induction false} InvAlways(s0: State, steps: seq<Step>)
    requires Init(s0) && Exec(s0, steps).Some?
    ensures Inv(Sync(s0.disk, s0.bufs), Exec(s0, steps).value)
  {
    if steps != [] {
      var n := |steps| - 1;
      InvAlways(s0, steps[..n]);
      StepKeeps(Sync(s0.disk, s0.bufs), Exec(s0, steps[..n]).value, steps[n]);
    }
  }

  /** Under any interleaving requests are served in the order they were made, each queued buffer appears once, iderw
      returns only after its own request was served, and then the caller has the buffer again. The buffers, and the
      disk whenever the queue is empty, are those of the synchronous driver making the same transfers in that order. */
  lemma QueuedDriverRefinesSynchronous(s0: State, steps: seq<Step>)
    requires Init(s0) && Exec(s0, steps).Some?
    ensures var s := Exec(s0, steps).value;
      && s.served <= s.submitted && Distinct(s.queue) && s.submitted == s.served + s.queue
      && s.bufs == Replay(Sync(s0.disk, s0.bufs), s.events).bufs
      && (s.queue == [] ==> s.disk == Replay(Sync(s0.disk, s0.bufs), s.events).disk)
      && (forall i :: Enabled(s, Return(i)) ==> i !in s.queue)
      && (forall i, b :: Enabled(s, Return(i)) ==> Enabled(TakeStep(s, Return(i)), Modify(i, b)))
  {
    InvAlways(s0, steps);
  }

  // ---------- The linked queue ----------

  predicate LinkAt(qnext: map<nat, Option<nat>>, q: seq<nat>, k: nat)
    requires k < |q|
  {
    q[k] in qnext && qnext[q[k]] == if k + 1 < |q| then Some(q[k + 1]) else None
  }

  /** The links lead along the queue, once through and then stop. */
  ghost predicate Chain(qnext: map<nat, Option<nat>>, q: seq<nat>)
  {
    Distinct(q) && forall k :: 0 <= k < |q| ==> LinkAt(qnext, q, k)
  }

  lemma ChainAppend(qnext: map<nat, Option<nat>>, q: seq<nat>, b: nat)
    requires Chain(qnext, q) && b !in q
    ensures q == [] ==> Chain(qnext[b := None], [b])
    ensures q != [] ==> Chain(qnext[b := None][q[|q| - 1] := Some(b)], q + [b])
  {
    if q != [] {
      var next, r := qnext[b := None][q[|q| - 1] := Some(b)], q + [b];
      forall k | 0 <= k < |r|
        ensures LinkAt(next, r, k)
      {
        if k < |q| {
          assert LinkAt(qnext, q, k) && r[k] == q[k];
          assert k < |q| - 1 ==> q[k] != q[|q| - 1];
        }
      }
    } else {
      assert LinkAt(qnext[b := None], [b], 0);
    }
  }

  lemma ChainTail(qnext: map<nat, Option<nat>>, q: seq<nat>)
    requires Chain(qnext, q) && q != []
    ensures Chain(qnext, q[1..]) && LinkAt(qnext, q, 0)
  {
    forall k | 0 <= k < |q[1..]|
      ensures LinkAt(qnext, q[1..], k)
    {
      assert LinkAt(qnext, q, k + 1);
    }
  }

  /** The driver: idequeue with the qnext links of the buffers on it, and what it last sent to the device. `model` is
      the state of the transition system that it is in. */
  class Driver {
    var head: Option<nat>
    var qnext: map<nat, Option<nat>>
    var bufs: map<nat, Buf>
    var disk: seq<Block>              // behind the data port
    var latch: Option<Block>
    ghost var model: State

    ghost predicate Valid()
      reads this
    {
      && head == First(model.queue) && Chain(qnext, model.queue)
      && bufs == model.bufs && disk == model.disk && latch == model.latch
    }

    constructor (disk: seq<Block>, bufs: map<nat, Buf>)
      ensures Valid() && Init(model) && model.disk == disk && model.bufs == bufs
    {
      head, qnext, latch := None, map[], None;
      this.disk, this.bufs := disk, bufs;
      model := State(disk, bufs, [], None, false, {}, [], [], []);
    }

    /** iderw's walk to the end of the queue; true if the buffer is now first and the disk must be started. */
    method Append(b: nat, ghost q: seq<nat>) returns (start: bool)
      requires head == First(q) && Chain(qnext, q) && b !in q
      modifies this`head, this`qnext
      ensures head == First(q + [b]) && Chain(qnext, q + [b]) && start == (q == [])
    {
      ghost var next0 := qnext;
      ChainAppend(qnext, q, b);
      qnext := qnext[b := None];
      if head.None? {
        head := Some(b);
        assert q + [b] == [b];
      } else {
        var p := head.value;
        ghost var k := 0;
        assert LinkAt(next0, q, 0);
        while qnext[p].Some?
          modifies {}
          invariant 0 <= k < |q| && p == q[k] && p in qnext && p != b && LinkAt(next0, q, k)
          decreases |q| - k
        {
          p := qnext[p].value;
          k := k + 1;
          assert LinkAt(next0, q, k);
        }
        qnext := qnext[p := Some(b)];
      }
      start := head == Some(b);
    }

    /** idestart. */
    method Idestart(b: nat)
      requires b in bufs
      modifies this`latch
      ensures latch == if bufs[b].dirty then Some(bufs[b].data) else None
    {
      latch := None;
      if bufs[b].dirty {
        latch := Some(bufs[b].data);
      }
    }

    /** The critical section of iderw up to its wait takes the step Submit. */
    method Iderw(b: nat, ghost start: Sync)
      requires Valid() && Inv(start, model) && Enabled(model, Submit(b))
      modifies this
      ensures Valid() && Inv(start, model) && model == Submitted(old(model), b)
    {
      hide Inv, Chain;
      SubmitKeeps(start, model, b);
      NotQueued(start, model, b);
      var first := Append(b, model.queue);
      if first {
        Idestart(b);
      }
      model := Submitted(model, b);
    }

    /** ideintr takes the step Interrupt, or none when nothing is queued. */
    method Ideintr(ghost start: Sync)
      requires Valid() && Inv(start, model) && (model.queue != [] ==> Enabled(model, Interrupt))
      modifies this
      ensures Valid() && Inv(start, model)
      ensures model == if old(model).queue == [] then old(model) else Interrupted(old(model))
    {
      hide Inv, Chain, Interrupted;
      if head.None? {
        return;
      }
      InterruptKeeps(start, model);
      ChainTail(qnext, model.queue);
      NextQueued(start, model);
      InterruptSends(model);
      var b := head.value;
      head := qnext[b];
      var x := bufs[b];
      if !x.dirty && x.blockno < |disk| {
        x := x.(data := disk[x.blockno]);
      }
      bufs := bufs[b := x.(valid := true, dirty := false)];
      latch := None;
      if head.Some? {
        Idestart(head.value);
      }
      model := Interrupted(model);
    }
  }

  function First(q: seq<nat>): (r: Option<nat>)
  {
    if q == [] then None else Some(q[0])
  }

  /** The data that goes to the device next is that of the next buffer. */
  lemma InterruptSends(s: State)
    requires s.queue != [] && s.queue[0] in s.bufs
    requires |s.queue| > 1 ==> s.queue[1] in s.bufs && s.queue[1] != s.queue[0]
    ensures var t, b := Interrupted(s), s.bufs[s.queue[0]];
      && t.queue == s.queue[1..] && t.disk == s.disk
      && t.bufs == s.bufs[s.queue[0] := (if !b.dirty && b.blockno < |s.disk| then b.(data := s.disk[b.blockno]) else b)
                                          .(valid := true, dirty := false)]
      && t.latch == if |s.queue| > 1 && s.bufs[s.queue[1]].dirty then Some(s.bufs[s.queue[1]].data) else None
  {
  }

  lemma NotQueued(start: Sync, s: State, i: nat)
    requires Inv(start, s) && Enabled(s, Submit(i))
    ensures i !in s.queue
  {
  }

  lemma NextQueued(start: Sync, s: State)
    requires Inv(start, s) && s.queue != []
    ensures |s.queue| > 1 ==> s.queue[1] in s.bufs && s.queue[1] != s.queue[0]
  {
    if |s.queue| > 1 {
      assert Pending(s, s.queue[1]);
    }
  }
}
