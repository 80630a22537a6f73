/** The multi-level feedback queue: selection, demotion, waiting time and the boost against starvation. */
module Mlfq {
  import opened Options

  const NPROC: nat := 64
  const LEVELS: nat := 4

  datatype ProcState = UNUSED | EMBRYO | SLEEPING | RUNNABLE | RUNNING | ZOMBIE

  datatype Proc = Proc(state: ProcState, priority: int, ticks: seq<nat>, waitTicks: seq<nat>)

  type Table = seq<Proc>

  /** slice[4] = {0, 32, 16, 8} */
  function Slice(prio: nat): (n: nat)
    requires prio < LEVELS
  {
    if prio == 1 then 32 else if prio == 2 then 16 else if prio == 3 then 8 else 0
  }

  /** How long a process waits at a level before it is boosted: 500 passes at level 0, ten slices above. */
  function Limit(prio: nat): (n: nat)
    requires prio < 3
  {
    if prio == 0 then 500 else 10 * Slice(prio)
  }

  predicate Shaped(p: Proc)
  {
    |p.ticks| == LEVELS && |p.waitTicks| == LEVELS
  }

  /** After every pass priorities are in range and nobody has waited out a limit. */
  predicate Tidy(p: Proc)
  {
    && Shaped(p) && 0 <= p.priority <= 3
    && forall l :: 0 <= l < 3 ==> p.waitTicks[l] < Limit(l)
  }

  // ---------- What one pass does to a slot ----------

  /** The process that ran loses a level if it used up its slice. */
  function Demoted(p: Proc): (r: Proc)
    requires Shaped(p)
  {
    if 0 < p.priority <= 3 && p.ticks[p.priority] >= Slice(p.priority) then
      p.(priority := p.priority - 1, ticks := p.ticks[p.priority := 0])
    else p
  }

  function Waited(p: Proc): (r: Proc)
    requires Shaped(p)
  {
    if p.state == RUNNABLE && 0 <= p.priority <= 3 then
      p.(waitTicks := p.waitTicks[p.priority := p.waitTicks[p.priority] + 1])
    else p
  }

  function Boosted(p: Proc): (r: Proc)
    requires Shaped(p)
  {
    if p.state != UNUSED && 0 <= p.priority < 3 && p.waitTicks[p.priority] >= Limit(p.priority) then
      p.(priority := p.priority + 1, waitTicks := p.waitTicks[p.priority := 0])
    else p
  }

  function AfterPass(p: Proc, selected: bool): (r: Proc)
    requires Shaped(p)
    ensures Shaped(r)
  {
    Boosted(if selected then Demoted(p) else Waited(p))
  }

  lemma PassKeepsTidy(p: Proc, selected: bool)
    requires Tidy(p)
    ensures Tidy(AfterPass(p, selected))
  {
  }

  /** The process that ran loses a level exactly if it used up its slice, of 32, 16 or 8 ticks at level 1, 2 or 3, and
      then its ticks at that level start again; nothing else changes for it. */
  lemma DemotedIff(p: Proc)
    requires Tidy(p)
    ensures var r := AfterPass(p, true);
      var used := (p.priority == 1 && p.ticks[1] >= 32) || (p.priority == 2 && p.ticks[2] >= 16) ||
                  (p.priority == 3 && p.ticks[3] >= 8);
      && (r.priority < p.priority <==> used)
      && r == if used then p.(priority := p.priority - 1, ticks := p.ticks[p.priority := 0]) else p
  {
  }

  /** A process that waited moves up a level exactly after 500, 320 or 160 passes at level 0, 1 or 2, and then its
      waiting time there starts again; the passes count while it is runnable. */
  lemma BoostedIff(p: Proc)
    requires Tidy(p) && p.state != UNUSED
    ensures var r := AfterPass(p, false);
      var waited := p.waitTicks[p.priority] + if p.state == RUNNABLE then 1 else 0;
      var due := (p.priority == 0 && waited >= 500) || (p.priority == 1 && waited >= 320) ||
                 (p.priority == 2 && waited >= 160);
      && (r.priority > p.priority <==> due)
      && r == p.(priority := if due then p.priority + 1 else p.priority,
                 waitTicks := p.waitTicks[p.priority := if due then 0 else waited])
  {
    assert p.waitTicks == p.waitTicks[p.priority := p.waitTicks[p.priority]];
    assert p.waitTicks[p.priority := p.waitTicks[p.priority] + 1][p.priority := 0] == p.waitTicks[p.priority := 0];
  }

  /** A process that is demoted in a pass is not boosted in it. */
  lemma NotDemotedAndBoosted(p: Proc)
    requires Tidy(p)
    ensures Boosted(Demoted(p)) == Demoted(p)
  {
  }

  // ---------- The countdown ----------

  /** The passes a waiting process is away from the top level. */
  function Remaining(p: Proc): (n: nat)
    requires Tidy(p)
    ensures n <= 980
  {
    (if p.priority <= 0 then 500 - p.waitTicks[0] else 0) +
    (if p.priority <= 1 then 320 - p.waitTicks[1] else 0) +
    (if p.priority <= 2 then 160 - p.waitTicks[2] else 0)
  }

  lemma TopIffZero(p: Proc)
    requires Tidy(p)
    ensures Remaining(p) == 0 <==> p.priority == 3
  {
  }

  /** Each pass spent runnable but unselected brings the top level exactly one pass closer. */
  lemma Countdown(p: Proc)
    requires Tidy(p) && p.state == RUNNABLE && p.priority < 3
    ensures var r := AfterPass(p, false); Tidy(r) && Remaining(r) == Remaining(p) - 1 && r.state == RUNNABLE
  {
    PassKeepsTidy(p, false);
  }

  // ---------- Runs ----------

  /** Between two passes a process may change state, use ticks, or be a new one in a free slot; nothing else
      touches priority or waiting time. */
  predicate EnvStep(p: Proc, r: Proc)
  {
    && Shaped(r)
    && ((r.priority == p.priority && r.waitTicks == p.waitTicks)
        || (p.state == UNUSED && r == Proc(EMBRYO, 3, [0, 0, 0, 0], [0, 0, 0, 0])))
  }

  datatype Event = Pass(selected: nat) | Other

  predicate Next(t: Table, e: Event, t': Table)
  {
    && |t| == |t'|
    && (forall i :: 0 <= i < |t| ==> Shaped(t[i]) && Shaped(t'[i]))
    && match e
       case Pass(sel) => forall i :: 0 <= i < |t| ==> t'[i] == AfterPass(t[i], i == sel)
       case Other => forall i :: 0 <= i < |t| ==> EnvStep(t[i], t'[i])
  }

  /** A run: tables ts with event es[k] between ts[k] and ts[k + 1]. */
  predicate Run(ts: seq<Table>, es: seq<Event>)
  {
    && |ts| == |es| + 1
    && (forall i :: 0 <= i < |ts[0]| ==> Tidy(ts[0][i]))
    && forall k :: 0 <= k < |es| ==> Next(ts[k], es[k], ts[k + 1])
  }

  lemma {:induction false} AlwaysTidy(ts: seq<Table>, es: seq<Event>, k: nat)
    requires Run(ts, es) && k <= |es|
    ensures |ts[k]| == |ts[0]| && forall i :: 0 <= i < |ts[k]| ==> Tidy(ts[k][i])
  {
    if k > 0 {
      AlwaysTidy(ts, es, k - 1);
      assert Next(ts[k - 1], es[k - 1], ts[k]);
      forall i | 0 <= i < |ts[k]|
        ensures Tidy(ts[k][i])
      {
        if es[k - 1].Pass? {
          PassKeepsTidy(ts[k - 1][i], i == es[k - 1].selected);
        }
      }
    }
  }

  /** Process i stays runnable and is never the one selected. */
  predicate Waits(ts: seq<Table>, es: seq<Event>, i: nat)
  {
    && (forall k :: 0 <= k < |ts| ==> i < |ts[k]| && ts[k][i].state == RUNNABLE)
    && forall k :: 0 <= k < |es| ==> es[k] != Pass(i)
  }

  function Passes(es: seq<Event>): (n: nat)
  {
    if es == [] then 0 else Passes(es[..|es| - 1]) + (if es[|es| - 1].Pass? then 1 else 0)
  }

  lemma RunPrefix(ts: seq<Table>, es: seq<Event>, i: nat)
    requires Run(ts, es) && es != [] && Waits(ts, es, i)
    ensures var n := |es|; Run(ts[..n], es[..n - 1]) && Waits(ts[..n], es[..n - 1], i)
  {
    var n := |es|;
    var us, ds := ts[..n], es[..n - 1];
    forall k | 0 <= k < |ds|
      ensures Next(us[k], ds[k], us[k + 1])
    {
      assert Next(ts[k], es[k], ts[k + 1]);
    }
  }

  /** An event while process i waits. */
  lemma WaitStep(t: Table, e: Event, t': Table, i: nat)
    requires Next(t, e, t') && i < |t| && i < |t'| && Tidy(t[i]) && Tidy(t'[i]) && e != Pass(i)
    requires t[i].state == RUNNABLE && t'[i].state == RUNNABLE
    ensures Remaining(t'[i]) == if e.Pass? && Remaining(t[i]) > 0 then Remaining(t[i]) - 1 else Remaining(t[i])
  {
    TopIffZero(t[i]);
    if e.Pass? && t[i].priority < 3 {
      Countdown(t[i]);
    }
  }

  lemma LastEvent(ts: seq<Table>, es: seq<Event>, i: nat)
    requires Run(ts, es) && es != [] && Waits(ts, es, i)
    ensures var n := |es| - 1;
      && Next(ts[n], es[n], ts[n + 1]) && i < |ts[n]| && i < |ts[n + 1]| && es[n] != Pass(i)
      && ts[n][i].state == RUNNABLE && ts[n + 1][i].state == RUNNABLE
  {
    assert Next(ts[|es| - 1], es[|es| - 1], ts[|es|]);
  }

  /** A waiting process moves up by the clock: after n passes exactly n of its remaining passes are gone, so it is
      at the top level exactly when at least as many passes went by as it had remaining, which is at most 980. */
  lemma {:induction false} AgingIsExact(ts: seq<Table>, es: seq<Event>, i: nat)
    requires Run(ts, es) && Waits(ts, es, i)
    ensures Tidy(ts[0][i]) && Tidy(ts[|es|][i])
    ensures Remaining(ts[|es|][i]) == if Passes(es) < Remaining(ts[0][i]) then Remaining(ts[0][i]) - Passes(es) else 0
    ensures ts[|es|][i].priority == 3 <==> Passes(es) >= Remaining(ts[0][i])
    ensures Passes(es) >= 980 ==> ts[|es|][i].priority == 3
  {
    AlwaysTidy(ts, es, 0);
    AlwaysTidy(ts, es, |es|);
    hide Next, Remaining, Tidy;
    TopIffZero(ts[|es|][i]);
    if es != [] {
      var n := |es| - 1;
      AlwaysTidy(ts, es, n);
      RunPrefix(ts, es, i);
      LastEvent(ts, es, i);
      hide Run, Waits;
      AgingIsExact(ts[..n + 1], es[..n], i);
      WaitStep(ts[n], es[n], ts[n + 1], i);
    }
  }

  // ---------- The scheduler's loops ----------

  /** sel is where the scan stops: no runnable process has a higher priority, and none of the same priority comes
      before it. */
  predicate Picked(t: Table, sel: nat)
  {
    && sel < |t| && t[sel].state == RUNNABLE && 0 <= t[sel].priority <= 3
    && (forall i :: 0 <= i < |t| && t[i].state == RUNNABLE && t[i].priority <= 3 ==> t[i].priority <= t[sel].priority)
    && (forall i :: 0 <= i < sel && t[i].state == RUNNABLE ==> t[i].priority != t[sel].priority)
  }

  class Scheduler {
    const proc: array<Proc>

    ghost predicate Valid()
      reads this, proc
    {
      proc.Length == NPROC && forall i :: 0 <= i < proc.Length ==> Shaped(proc[i])
    }

    /** The two nested scans over priorities and slots. */
    method Select() returns (r: Option<nat>)
      requires Valid()
      ensures r.Some? ==> Picked(proc[..], r.value)
      ensures r.None? ==>
        forall i :: 0 <= i < proc.Length && proc[i].state == RUNNABLE ==> !(0 <= proc[i].priority <= 3)
    {
      var prio := 3;
      while prio >= 0
        invariant -1 <= prio <= 3
        invariant forall i :: 0 <= i < proc.Length && proc[i].state == RUNNABLE && proc[i].priority <= 3 ==>
          proc[i].priority <= prio
      {
        for p := 0 to proc.Length
          invariant forall i :: 0 <= i < p && proc[i].state == RUNNABLE ==> proc[i].priority != prio
        {
          if proc[p].state == RUNNABLE && proc[p].priority == prio {
            return Some(p);
          }
        }
        prio := prio - 1;
      }
      r := None;
    }

    method UpdateWaitTicks(running: nat)
      requires Valid()
      modifies proc
      ensures Valid()
      ensures forall i :: 0 <= i < proc.Length ==>
        proc[i] == if i == running then old(proc[i]) else Waited(old(proc[i]))
    {
      for p := 0 to proc.Length
        invariant forall i :: 0 <= i < p ==> proc[i] == if i == running then old(proc[i]) else Waited(old(proc[i]))
        invariant forall i :: p <= i < proc.Length ==> proc[i] == old(proc[i])
      {
        if p != running && proc[p].state == RUNNABLE {
          if 0 <= proc[p].priority <= 3 {
            var prio := proc[p].priority;
            proc[p] := proc[p].(waitTicks := proc[p].waitTicks[prio := proc[p].waitTicks[prio] + 1]);
          }
        }
      }
    }

    method PriorityBoost()
      requires Valid()
      modifies proc
      ensures Valid()
      ensures forall i :: 0 <= i < proc.Length ==> proc[i] == Boosted(old(proc[i]))
    {
      for p := 0 to proc.Length
        invariant forall i :: 0 <= i < p ==> proc[i] == Boosted(old(proc[i]))
        invariant forall i :: p <= i < proc.Length ==> proc[i] == old(proc[i])
      {
        if proc[p].state != UNUSED {
          var prio := proc[p].priority;
          if prio == 2 || prio == 1 {
            var limit := 10 * Slice(prio);
            if proc[p].waitTicks[prio] >= limit {
              proc[p] := proc[p].(priority := prio + 1, waitTicks := proc[p].waitTicks[prio := 0]);
            }
          }
          if prio == 0 {
            if proc[p].waitTicks[0] >= 500 {
              proc[p] := proc[p].(priority := 1, waitTicks := proc[p].waitTicks[0 := 0]);
            }
          }
        }
      }
    }

    /** What the scheduler does when the selected process gives the CPU back. */
    method Finish(selected: nat)
      requires Valid() && selected < proc.Length
      modifies proc
      ensures Valid() && Next(old(proc[..]), Pass(selected), proc[..])
    {
      ghost var t := proc[..];
      var prio := proc[selected].priority;
      if 0 < prio <= 3 && proc[selected].ticks[prio] >= Slice(prio) {
        proc[selected] := proc[selected].(priority := prio - 1, ticks := proc[selected].ticks[prio := 0]);
      }
      UpdateWaitTicks(selected);
      PriorityBoost();
      assert forall i :: 0 <= i < |t| ==> proc[i] == AfterPass(t[i], i == selected);
    }
  }
}
