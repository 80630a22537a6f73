/** Whose bytes are in the pipe: each pipewrite puts in its own buffer in order, however the calls interleave. */
module PipeCalls {
  import opened Options
  import opened Pipe

  // ---------- The bytes of one call ----------

  /** The bytes that call c has put in, in the order they went in. */
  function By(accepted: seq<Byte>, origin: seq<nat>, c: nat): (r: seq<Byte>)
    requires |accepted| == |origin|
    decreases |accepted|
  {
    if accepted == [] then [] else
      var n := |accepted| - 1;
      By(accepted[..n], origin[..n], c) + if origin[n] == c then [accepted[n]] else []
  }

  lemma ByMore(accepted: seq<Byte>, origin: seq<nat>, x: Byte, d: nat, c: nat)
    requires |accepted| == |origin|
    ensures By(accepted + [x], origin + [d], c) == By(accepted, origin, c) + if d == c then [x] else []
  {
    assert (accepted + [x])[..|accepted|] == accepted && (origin + [d])[..|origin|] == origin;
  }

  lemma {:induction false} ByNone(accepted: seq<Byte>, origin: seq<nat>, c: nat)
    requires |accepted| == |origin| && c !in origin
    ensures By(accepted, origin, c) == []
  {
    if accepted != [] {
      var n := |accepted| - 1;
      assert origin[n] != c;
      ByNone(accepted[..n], origin[..n], c);
    }
  }

  /** Bytes that all come from one call and are the only ones of it. */
  lemma {:induction false} ByTail(accepted: seq<Byte>, origin: seq<nat>, c: nat, a: nat)
    requires a <= |accepted| == |origin| && c !in origin[..a] && forall k :: a <= k < |origin| ==> origin[k] == c
    ensures By(accepted, origin, c) == accepted[a..]
    decreases |accepted|
  {
    var n := |accepted| - 1;
    if a == |accepted| {
      assert origin[..a] == origin;
      ByNone(accepted, origin, c);
    } else {
      assert origin[..n][..a] == origin[..a];
      ByTail(accepted[..n], origin[..n], c, a);
      assert accepted[..n][a..] + [accepted[n]] == accepted[a..];
    }
  }

  // ---------- The invariant ----------

  predicate IsWriter(ts: Threads, t: nat)
  {
    t in ts && Writing(ts[t])
  }

  /** The writer t has put in the first i bytes of its buffer, and nothing else. */
  predicate Own(s: State, t: nat)
    requires |s.accepted| == |s.origin| && IsWriter(s.threads, t)
  {
    var th := s.threads[t];
    && th.call < |s.calls| && th.call !in s.done && s.calls[th.call] == th.addr && th.i <= |th.addr|
    && By(s.accepted, s.origin, th.call) == th.addr[..th.i]
  }

  /** A call that returned n has put in its whole buffer; one that returned -1, a proper part from the front. */
  predicate Settled(s: State, c: nat)
    requires |s.accepted| == |s.origin| && c in s.done
  {
    && c < |s.calls|
    && if s.done[c] then By(s.accepted, s.origin, c) == s.calls[c] else By(s.accepted, s.origin, c) < s.calls[c]
  }

  ghost predicate Underway(s: State, c: nat)
  {
    exists t :: IsWriter(s.threads, t) && s.threads[t].call == c
  }

  ghost predicate Authored(s: State)
  {
    && |s.accepted| == |s.origin|
    && (forall c :: c in s.origin ==> c < |s.calls|)
    && (forall t :: IsWriter(s.threads, t) ==> Own(s, t))
    && (forall t, u :: IsWriter(s.threads, t) && IsWriter(s.threads, u) && t != u ==>
          s.threads[t].call != s.threads[u].call)
    && (forall c :: c in s.done ==> Settled(s, c))
    && (forall c: nat :: c < |s.calls| ==> c in s.done || Underway(s, c))
  }

  /** The writers of ts are those of ts', and as far as before. */
  ghost predicate SameWriters(ts: Threads, ts': Threads)
  {
    forall t :: IsWriter(ts, t) == IsWriter(ts', t) &&
      (IsWriter(ts, t) ==> ts[t].call == ts'[t].call && ts[t].addr == ts'[t].addr && ts[t].i == ts'[t].i)
  }

  lemma NoByte(s: State, s': State)
    requires Authored(s) && SameWriters(s.threads, s'.threads)
    requires s'.accepted == s.accepted && s'.origin == s.origin && s'.calls == s.calls && s'.done == s.done
    ensures Authored(s')
  {
    hide By;
    forall t | IsWriter(s'.threads, t)
      ensures Own(s', t)
    {
      assert IsWriter(s.threads, t) && Own(s, t);
    }
    forall c: nat | c < |s'.calls| && c !in s'.done
      ensures Underway(s', c)
    {
      var t :| IsWriter(s.threads, t) && s.threads[t].call == c;
      assert IsWriter(s'.threads, t);
    }
    forall c | c in s'.done
      ensures Settled(s', c)
    {
      assert Settled(s, c);
    }
  }

  lemma Called(s: State, t: nat, addr: seq<Byte>)
    requires Authored(s) && Enabled(s, CallWrite(t, addr))
    ensures Authored(TakeStep(s, CallWrite(t, addr)))
  {
    var s' := TakeStep(s, CallWrite(t, addr));
    hide By;
    ByNone(s.accepted, s.origin, |s.calls|);
    forall u | IsWriter(s'.threads, u)
      ensures Own(s', u)
    {
      if u != t {
        assert IsWriter(s.threads, u) && Own(s, u);
      }
    }
    forall c: nat | c < |s'.calls| && c !in s'.done
      ensures Underway(s', c)
    {
      if c == |s.calls| {
        assert IsWriter(s'.threads, t);
      } else {
        var u :| IsWriter(s.threads, u) && s.threads[u].call == c;
        assert IsWriter(s'.threads, u);
      }
    }
    forall c | c in s'.done
      ensures Settled(s', c)
    {
      assert Settled(s, c);
    }
    forall u, v | IsWriter(s'.threads, u) && IsWriter(s'.threads, v) && u != v
      ensures s'.threads[u].call != s'.threads[v].call
    {
      assert u != t ==> IsWriter(s.threads, u) && Own(s, u);
      assert v != t ==> IsWriter(s.threads, v) && Own(s, v);
    }
  }

  /** The writer t has put in its next byte. */
  function Advanced(s: State, t: nat): (s': State)
    requires IsWriter(s.threads, t) && s.threads[t].i < |s.threads[t].addr|
  {
    var th := s.threads[t];
    s.(accepted := s.accepted + [th.addr[th.i]], origin := s.origin + [th.call],
       threads := s.threads[t := WLoop(th.call, th.addr, th.i + 1)])
  }

  lemma AdvancedOwn(s: State, t: nat, u: nat)
    requires Authored(s) && IsWriter(s.threads, t) && s.threads[t].i < |s.threads[t].addr| && IsWriter(s.threads, u)
    ensures Own(Advanced(s, t), u)
  {
    var th, s' := s.threads[t], Advanced(s, t);
    assert Own(s, t) && Own(s, u) && (u != t ==> s.threads[u].call != th.call);
    hide By, Authored;
    ByMore(s.accepted, s.origin, th.addr[th.i], th.call, s.threads[u].call);
    assert th.addr[..th.i] + [th.addr[th.i]] == th.addr[..th.i + 1];
  }

  lemma AdvancedSettled(s: State, t: nat, c: nat)
    requires Authored(s) && IsWriter(s.threads, t) && s.threads[t].i < |s.threads[t].addr| && c in s.done
    ensures Settled(Advanced(s, t), c)
  {
    var th := s.threads[t];
    assert Own(s, t) && Settled(s, c);
    hide By, Authored;
    ByMore(s.accepted, s.origin, th.addr[th.i], th.call, c);
  }

  lemma AdvancedUnderway(s: State, t: nat, c: nat)
    requires IsWriter(s.threads, t) && s.threads[t].i < |s.threads[t].addr| && Underway(s, c)
    ensures Underway(Advanced(s, t), c)
  {
    var u :| IsWriter(s.threads, u) && s.threads[u].call == c;
    assert IsWriter(Advanced(s, t).threads, u);
  }

  lemma BytePut(s: State, t: nat)
    requires Authored(s) && IsWriter(s.threads, t) && s.threads[t].i < |s.threads[t].addr|
    ensures Authored(Advanced(s, t))
  {
    var s' := Advanced(s, t);
    assert Own(s, t);
    hide By, Own, Settled, Underway;
    forall u | IsWriter(s'.threads, u)
      ensures Own(s', u)
    {
      AdvancedOwn(s, t, u);
    }
    forall c: nat | c < |s'.calls| && c !in s'.done
      ensures Underway(s', c)
    {
      AdvancedUnderway(s, t, c);
    }
    forall c | c in s'.done
      ensures Settled(s', c)
    {
      AdvancedSettled(s, t, c);
    }
    forall u, v | IsWriter(s'.threads, u) && IsWriter(s'.threads, v) && u != v
      ensures s'.threads[u].call != s'.threads[v].call
    {
      assert IsWriter(s.threads, u) && IsWriter(s.threads, v);
    }
  }

  /** A writer leaves, with its n exactly if its buffer is out. */
  lemma Returned(s: State, t: nat)
    requires Authored(s) && IsWriter(s.threads, t)
    ensures var th := s.threads[t];
      Authored(s.(threads := s.threads - {t}, done := s.done[th.call := th.i >= |th.addr|]))
  {
    var th := s.threads[t];
    var s' := s.(threads := s.threads - {t}, done := s.done[th.call := th.i >= |th.addr|]);
    assert Own(s, t);
    hide By;
    forall u | IsWriter(s'.threads, u)
      ensures Own(s', u)
    {
      assert IsWriter(s.threads, u) && Own(s, u);
    }
    forall c: nat | c < |s'.calls| && c !in s'.done
      ensures Underway(s', c)
    {
      var u :| IsWriter(s.threads, u) && s.threads[u].call == c;
      assert IsWriter(s'.threads, u);
    }
    forall c | c in s'.done
      ensures Settled(s', c)
    {
      if c == th.call {
        assert th.i >= |th.addr| ==> th.addr[..th.i] == th.addr;
      } else {
        assert Settled(s, c);
      }
    }
    forall u, v | IsWriter(s'.threads, u) && IsWriter(s'.threads, v) && u != v
      ensures s'.threads[u].call != s'.threads[v].call
    {
      assert IsWriter(s.threads, u) && IsWriter(s.threads, v);
    }
  }

  lemma SameAwake(ts: Threads, t: nat)
    ensures SameWriters(ts, ts) && SameWriters(ts, WakeReaders(ts)) && SameWriters(ts, WakeWriters(ts))
    ensures SameWriters(ts - {t}, WakeReaders(ts) - {t}) && SameWriters(ts - {t}, WakeWriters(ts) - {t})
    ensures !IsWriter(ts, t) ==> SameWriters(ts, ts - {t}) && SameWriters(ts, WakeWriters(ts) - {t})
  {
  }

  /** Thread t goes on as th, a writer where it was or a reader as before. */
  lemma SameThread(ts: Threads, t: nat, th: Thread)
    requires Writing(th) == IsWriter(ts, t)
    requires Writing(th) ==> th.call == ts[t].call && th.addr == ts[t].addr && th.i == ts[t].i
    ensures SameWriters(ts, ts[t := th]) && SameWriters(ts, WakeReaders(ts)[t := th])
  {
  }

  /** A turn of a writer. */
  lemma WriterAuthored(s: State, t: nat)
    requires Authored(s) && Enabled(s, Run(t)) && s.threads[t].WLoop?
    ensures Authored(TakeStep(s, Run(t)))
  {
    hide Authored, Full, SameWriters, WakeReaders;
    var s', th := TakeStep(s, Run(t)), s.threads[t];
    SameAwake(s.threads, t);
    SameThread(s.threads, t, WSleep(th.call, th.addr, th.i));
    if th.i < |th.addr| && !Full(s.nread, s.nwrite) {
      BytePut(s, t);
      SameAwake(s'.threads, t);
      NoByte(Advanced(s, t), s');
    } else if th.i < |th.addr| && s.readopen && t !in s.killed {
      NoByte(s, s');
    } else {
      Returned(s, t);
      SameAwake(s.threads - {t}, t);
      NoByte(s.(threads := s.threads - {t}, done := s.done[th.call := th.i >= |th.addr|]), s');
    }
  }

  /** A turn of a reader changes no writer. */
  lemma ReaderSame(s: State, t: nat)
    requires Enabled(s, Run(t)) && !s.threads[t].WLoop?
    ensures var s' := TakeStep(s, Run(t));
      && SameWriters(s.threads, s'.threads) && s'.accepted == s.accepted && s'.origin == s.origin
      && s'.calls == s.calls && s'.done == s.done
  {
    hide Empty, SameWriters, WakeWriters;
    var ts, s' := s.threads, TakeStep(s, Run(t));
    SameAwake(ts, t);
    match ts[t]
    case RWait(n) =>
      SameThread(ts, t, RSleep(n));
      SameThread(ts, t, RCopy(n, []));
    case RCopy(n, buf) =>
      if t in s'.threads {
        SameThread(ts, t, RCopy(n, buf + [s.data[s.nread % PIPESIZE]]));
      }
  }

  lemma AuthoredStep(s: State, step: Step)
    requires Authored(s) && Enabled(s, step)
    ensures Authored(TakeStep(s, step))
  {
    hide Authored;
    match step
    case CallWrite(t, addr) => Called(s, t, addr);
    case Run(t) =>
      if s.threads[t].WLoop? {
        WriterAuthored(s, t);
      } else {
        ReaderSame(s, t);
        NoByte(s, TakeStep(s, step));
      }
    case CallRead(_, _) => NoByte(s, TakeStep(s, step));
    case Relock(_) => NoByte(s, TakeStep(s, step));
    case Close(_) => NoByte(s, TakeStep(s, step));
    case Kill(_) => NoByte(s, TakeStep(s, step));
  }

  /** In every run a call under way has put in exactly the part of its buffer before i, a call that returned n its whole
      buffer, and one that returned -1 a proper part from the front. */
  lemma {:induction false} AuthoredAlways(s0: State, steps: seq<Step>)
    requires Init(s0) && Exec(s0, steps).Some?
    ensures Authored(Exec(s0, steps).value)
  {
    if steps != [] {
      AuthoredAlways(s0, steps[..|steps| - 1]);
      hide Authored;
      AuthoredStep(Exec(s0, steps[..|steps| - 1]).value, steps[|steps| - 1]);
    }
  }

  /** So the bytes of each call, taken out of the stream, are a prefix of its buffer. */
  lemma EachInOrder(s0: State, steps: seq<Step>, c: nat)
    requires Init(s0) && Exec(s0, steps).Some? && c < |Exec(s0, steps).value.calls|
    ensures var s := Exec(s0, steps).value;
      && |s.accepted| == |s.origin| && By(s.accepted, s.origin, c) <= s.calls[c]
      && (c in s.done ==> (s.done[c] <==> By(s.accepted, s.origin, c) == s.calls[c]))
  {
    AuthoredAlways(s0, steps);
    hide By, Exec;
    var s := Exec(s0, steps).value;
    if c in s.done {
      assert Settled(s, c);
    } else {
      var t :| IsWriter(s.threads, t) && s.threads[t].call == c;
      assert Own(s, t);
    }
  }

  // ---------- A writer on its own ----------

  /** What happened since s: the history went on, and only calls begun since or under way then put in bytes. */
  ghost predicate Since(s: State, s': State)
  {
    && s.accepted <= s'.accepted && s.origin <= s'.origin && s.calls <= s'.calls
    && (forall k :: |s.origin| <= k < |s'.origin| ==> |s.calls| <= s'.origin[k] || Underway(s, s'.origin[k]))
    && (forall t :: IsWriter(s'.threads, t) ==> |s.calls| <= s'.threads[t].call || Underway(s, s'.threads[t].call))
  }

  lemma StepHistory(m: State, step: Step)
    requires Enabled(m, step)
    ensures var s' := TakeStep(m, step);
      && m.accepted <= s'.accepted && m.calls <= s'.calls
      && (|| s'.origin == m.origin
          || (step.Run? && IsWriter(m.threads, step.t) && s'.origin == m.origin + [m.threads[step.t].call]))
  {
    hide Full, Empty, WakeReaders, WakeWriters, RunReader, RunCopy;
    if step.Run? && !m.threads[step.t].WLoop? {
      ReaderSame(m, step.t);
    }
  }

  lemma WriterCall(m: State, u: nat, call: nat, addr: seq<Byte>, i: nat, t: nat)
    requires |m.data| == PIPESIZE && u in m.threads && m.threads[u] == WLoop(call, addr, i)
    requires IsWriter(RunWriter(m, u, call, addr, i).threads, t)
    ensures IsWriter(m.threads, t) && m.threads[t].call == RunWriter(m, u, call, addr, i).threads[t].call
  {
    hide Full;
  }

  lemma StepWriter(m: State, step: Step, t: nat)
    requires Enabled(m, step) && IsWriter(TakeStep(m, step).threads, t)
    ensures var call := TakeStep(m, step).threads[t].call;
      (IsWriter(m.threads, t) && m.threads[t].call == call) || call == |m.calls|
  {
    hide RunWriter, RunReader, RunCopy;
    if step.Run? {
      var th := m.threads[step.t];
      if th.WLoop? {
        WriterCall(m, step.t, th.call, th.addr, th.i, t);
      } else {
        ReaderSame(m, step.t);
      }
    }
  }

  lemma SinceStep(s: State, m: State, step: Step)
    requires Since(s, m) && Enabled(m, step)
    ensures Since(s, TakeStep(m, step))
  {
    hide Underway, TakeStep, Enabled;
    var s' := TakeStep(m, step);
    StepHistory(m, step);
    forall t | IsWriter(s'.threads, t)
      ensures |s.calls| <= s'.threads[t].call || Underway(s, s'.threads[t].call)
    {
      StepWriter(m, step, t);
    }
  }

  lemma {:induction false} SinceAlways(s0: State, steps: seq<Step>, more: seq<Step>)
    requires Exec(s0, steps).Some? && Exec(s0, steps + more).Some?
    ensures Since(Exec(s0, steps).value, Exec(s0, steps + more).value)
  {
    if more == [] {
      assert steps + more == steps;
      var s := Exec(s0, steps).value;
      assert forall t :: IsWriter(s.threads, t) ==> Underway(s, s.threads[t].call);
    } else {
      var n := |more| - 1;
      assert (steps + more)[..|steps + more| - 1] == steps + more[..n];
      SinceAlways(s0, steps, more[..n]);
      hide Since;
      SinceStep(Exec(s0, steps).value, Exec(s0, steps + more[..n]).value, more[n]);
    }
  }

  lemma OneOrigin(s: State, s': State, k: nat)
    requires Since(s, s') && Authored(s') && |s'.calls| == |s.calls| + 1 && |s.origin| <= k < |s'.origin|
    requires forall t :: !IsWriter(s.threads, t)
    ensures s'.origin[k] == |s.calls|
  {
    hide By, Own, Settled;
    assert s'.origin[k] in s'.origin;
  }

  lemma OneCall(s: State, s': State, addr: seq<Byte>)
    requires Authored(s) && Authored(s') && Since(s, s') && forall t :: !IsWriter(s.threads, t)
    requires s'.calls == s.calls + [addr] && |s.calls| in s'.done && s'.done[|s.calls|]
    ensures s'.accepted == s.accepted + addr
  {
    var c, a := |s.calls|, |s.accepted|;
    assert Settled(s', c);
    assert s'.origin[..a] == s.origin;
    assert c !in s.origin;
    hide By, Own, Settled, Underway;
    forall k | a <= k < |s'.origin|
      ensures s'.origin[k] == c
    {
      OneOrigin(s, s', k);
    }
    hide Authored, Since;
    ByTail(s'.accepted, s'.origin, c, a);
    assert s'.accepted == s'.accepted[..a] + s'.accepted[a..];
  }

  /** If no writer is in the pipe, then one call is made and it returns n, its buffer is what was added. */
  lemma LoneWriter(s0: State, steps: seq<Step>, more: seq<Step>, addr: seq<Byte>)
    requires Init(s0) && Exec(s0, steps).Some? && Exec(s0, steps + more).Some?
    requires forall t :: !IsWriter(Exec(s0, steps).value.threads, t)
    requires var s, s' := Exec(s0, steps).value, Exec(s0, steps + more).value;
      s'.calls == s.calls + [addr] && |s.calls| in s'.done && s'.done[|s.calls|]
    ensures Exec(s0, steps + more).value.accepted == Exec(s0, steps).value.accepted + addr
  {
    hide Exec, Authored, Since, IsWriter;
    AuthoredAlways(s0, steps);
    AuthoredAlways(s0, steps + more);
    SinceAlways(s0, steps, more);
    OneCall(Exec(s0, steps).value, Exec(s0, steps + more).value, addr);
  }

  // ---------- What readers get ----------

  /** No reader gets more than it asked for. */
  ghost predicate AtMost(s: State)
  {
    && |s.results| == |s.asked| && (forall k :: 0 <= k < |s.results| ==> |s.results[k]| <= s.asked[k])
    && forall t :: t in s.threads && s.threads[t].RCopy? ==> |s.threads[t].buf| <= s.threads[t].n
  }

  lemma AtMostRun(s: State, t: nat)
    requires AtMost(s) && Enabled(s, Run(t))
    ensures AtMost(TakeStep(s, Run(t)))
  {
    hide Full, Empty, RunWriter, RunReader, RunCopy;
    match s.threads[t]
    case WLoop(call, addr, i) => AtMostWriter(s, t, call, addr, i);
    case RWait(n) => AtMostReader(s, t, n);
    case RCopy(n, buf) => AtMostCopy(s, t, n, buf);
  }

  lemma AtMostWriter(s: State, t: nat, call: nat, addr: seq<Byte>, i: nat)
    requires AtMost(s) && |s.data| == PIPESIZE
    ensures AtMost(RunWriter(s, t, call, addr, i))
  {
    hide Full;
  }

  lemma AtMostReader(s: State, t: nat, n: nat)
    requires AtMost(s)
    ensures AtMost(RunReader(s, t, n))
  {
    hide Empty;
  }

  lemma AtMostCopy(s: State, t: nat, n: nat, buf: seq<Byte>)
    requires AtMost(s) && |s.data| == PIPESIZE && |buf| <= n
    ensures AtMost(RunCopy(s, t, n, buf))
  {
    hide Empty;
  }

  lemma AtMostStep(s: State, step: Step)
    requires AtMost(s) && Enabled(s, step)
    ensures AtMost(TakeStep(s, step))
  {
    if step.Run? {
      AtMostRun(s, step.t);
    } else {
      hide RunWriter, RunReader, RunCopy;
    }
  }

  lemma {:induction false} AtMostAlways(s0: State, steps: seq<Step>)
    requires Init(s0) && Exec(s0, steps).Some?
    ensures AtMost(Exec(s0, steps).value)
  {
    if steps != [] {
      AtMostAlways(s0, steps[..|steps| - 1]);
      hide AtMost;
      AtMostStep(Exec(s0, steps[..|steps| - 1]).value, steps[|steps| - 1]);
    }
  }

  // ---------- What one turn decides ----------

  /** A writer's turn, by how many bytes are in the pipe: it returns n when its buffer is out and puts in the next byte
      when there is room. On a full pipe it returns -1 if the read end is closed or it is killed, and else sleeps. */
  lemma WriterDecides(s: State, t: nat)
    requires Fifo(s) && Enabled(s, Run(t)) && s.threads[t].WLoop?
    ensures var s', th := TakeStep(s, Run(t)), s.threads[t];
      var out, room := th.i >= |th.addr|, |s.accepted| - |s.delivered| < 512;
      && (t !in s'.threads && s'.done == s.done[th.call := true] && s'.accepted == s.accepted <==> out)
      && (!out && s'.accepted == s.accepted + [th.addr[th.i]] <==> !out && room)
      && (!out ==> (t !in s'.threads <==> !room && (!s.readopen || t in s.killed)))
      && (!out && t !in s'.threads ==> s'.done == s.done[th.call := false])
      && (t in s'.threads && s'.threads[t] == WSleep(th.call, th.addr, th.i) <==>
          !out && !room && s.readopen && t !in s.killed)
  {
    TestsAreRight(s.data, s.nread, s.nwrite, s.accepted, s.delivered);
    hide Ring, Full, Flat;
    var s', th := TakeStep(s, Run(t)), s.threads[t];
    if th.i < |th.addr| && t !in s'.threads {
      assert s'.done[th.call] == false;
    }
  }

  /** A reader's turn before copying: it sleeps on an empty pipe that can still be written to, unless it is killed and
      returns; otherwise it starts to copy. */
  lemma ReaderDecides(s: State, t: nat)
    requires Fifo(s) && Enabled(s, Run(t)) && s.threads[t].RWait?
    ensures var s' := TakeStep(s, Run(t));
      var dry := |s.accepted| == |s.delivered| && s.writeopen;
      && (t !in s'.threads <==> dry && t in s.killed)
      && (t in s'.threads && s'.threads[t] == RSleep(s.threads[t].n) <==> dry && t !in s.killed)
      && (t in s'.threads && s'.threads[t] == RCopy(s.threads[t].n, []) <==> !dry)
  {
    TestsAreRight(s.data, s.nread, s.nwrite, s.accepted, s.delivered);
    hide Ring, Empty, Flat;
  }

  /** A turn of the copy loop returns exactly when n bytes are there or the pipe is empty, and takes the oldest byte
      otherwise. */
  lemma CopyDecides(s: State, t: nat)
    requires Fifo(s) && Enabled(s, Run(t)) && s.threads[t].RCopy?
    ensures var s', th := TakeStep(s, Run(t)), s.threads[t];
      var enough := |th.buf| >= th.n || |s.accepted| == |s.delivered|;
      && (t !in s'.threads && s'.results == s.results + [th.buf] <==> enough)
      && (!enough ==>
          && |s.delivered| < |s.accepted| && t in s'.threads
          && s'.threads[t] == RCopy(th.n, th.buf + [s.accepted[|s.delivered|]]))
  {
    TestsAreRight(s.data, s.nread, s.nwrite, s.accepted, s.delivered);
    SlotOf(|s.delivered|);
    hide Empty, Flat;
  }
}
