/**
  Three things one may expect of the program that it does not always deliver, each with
  the exact settings under which it does: that all threads exit, that no item beyond
  total_items is produced, and that none is left in the buffer.
 */
module MasterWorkerExactness {
  import opened Conditions
  import opened Tallies
  import opened MasterWorker
  import opened MasterWorkerSafety
  import opened MasterWorkerTermination

  ghost predicate AllExited(s: State) {
    && (forall m :: 0 <= m < |s.masters| ==> s.masters[m] == Exited)
    && (forall w :: 0 <= w < |s.workers| ==> s.workers[w] == Exited)
  }

  /** The settings under which every thread exits, however the threads are scheduled. */
  predicate EveryoneExits(c: Settings) {
    || c.total == 0
    || (c.masters == 0 && c.workers == 0)
    || (0 < c.masters && 0 < c.capacity && c.workers <= 1 && c.total <= c.capacity)
    || (0 < c.masters <= c.capacity + 1 && 0 < c.capacity && c.workers == 1)
  }

  /** The settings under which some schedule produces more items than asked for. */
  predicate CanOverproduce(c: Settings) {
    2 <= c.masters && 1 <= c.workers && 1 <= c.capacity < c.total
  }

  /** Beyond the common invariant: who sleeps when, and how the first extra item came about. */
  ghost predicate Finer(c: Settings, s: State) {
    && (Asleep in s.workers ==> 0 < c.total)
    && (c.workers == 1 && Asleep in s.workers ==> s.buffer == [] && s.next < c.total)
    && (c.total < s.next ==> c.capacity < c.total)
    && (0 < s.next ==> 0 < c.capacity)
    && (s.consumed != [] ==> 0 < c.workers)
  }

  lemma StepKeepsFiner(c: Settings, s: State, a: Action)
    requires Inv(c, s) && Finer(c, s) && Enabled(c, s, a)
    ensures Finer(c, Do(c, s, a))
  {
    if a.MasterRun? && s.masters[a.m] == Woken {
      TallyAtLeast(s.masters, a.m, Committed);
    }
    if c.workers == 1 {
      assert Asleep in s.workers <==> s.workers[0] == Asleep;
    }
  }

  lemma {:induction false} FinerSafety(c: Settings, acts: seq<Action>, s: State)
    requires After(c, acts) == Some(s)
    ensures Inv(c, s) && Finer(c, s)
    decreases |acts|
  {
    Safety(c, acts, s);
    if acts != [] {
      var front := acts[..|acts| - 1];
      var before := After(c, front).value;
      FinerSafety(c, front, before);
      StepKeepsFiner(c, before, acts[|acts| - 1]);
    }
  }

  // ---- schedules that reach the bad states

  function AllReady(n: nat): seq<Thread> {
    seq(n, _ => Ready)
  }

  function AllAsleep(n: nat): seq<Thread> {
    seq(n, _ => Asleep)
  }

  /** One master fills k slots of the buffer while no other thread moves. */
  lemma {:induction false} Fill(c: Settings, k: nat) returns (s: State)
    requires 0 < c.masters && k <= c.capacity && k <= c.total
    ensures ReachableBySignals(c, s) && s.next == k && |s.buffer| == k
    ensures s.masters == AllReady(c.masters) && s.workers == AllReady(c.workers)
  {
    if k == 0 {
      s := Init(c);
      assert After(c, []) == Some(s);
    } else {
      var before := Fill(c, k - 1);
      s := Do(c, before, MasterRun(0, 0));
      StepReachable(c, before, MasterRun(0, 0));
    }
  }

  /** With the buffer full, the first k masters check, find it full and sleep. */
  lemma {:induction false} Block(c: Settings, k: nat) returns (s: State)
    requires k <= c.masters && 0 < c.masters && c.capacity < c.total
    ensures ReachableBySignals(c, s) && s.next == |s.buffer| == c.capacity
    ensures s.masters == AllAsleep(k) + AllReady(c.masters - k) && s.workers == AllReady(c.workers)
  {
    if k == 0 {
      s := Fill(c, c.capacity);
    } else {
      var before := Block(c, k - 1);
      s := Do(c, before, MasterRun(k - 1, 0));
      StepReachable(c, before, MasterRun(k - 1, 0));
    }
  }

  /** Worker 0 and master 0 pass the last items along while every other master sleeps. */
  lemma {:induction false} Advance(c: Settings, n: nat) returns (s: State)
    requires 0 < c.masters && 0 < c.workers && 1 <= c.capacity <= n <= c.total && c.capacity < c.total
    ensures ReachableBySignals(c, s) && s.next == n && |s.buffer| == c.capacity
    ensures s.masters == AllAsleep(c.masters)[0 := if n < c.total then Asleep else Ready]
    ensures s.workers == AllReady(c.workers)
    decreases n
  {
    if n == c.capacity {
      s := Block(c, c.masters);
    } else {
      var s0 := Advance(c, n - 1);
      var s1 := Do(c, s0, WorkerRun(0, 0));
      StepReachable(c, s0, WorkerRun(0, 0));
      s := Do(c, s1, MasterRun(0, 0));
      StepReachable(c, s1, MasterRun(0, 0));
      if n < c.total {
        var s2 := s;
        s := Do(c, s2, MasterRun(0, 0));
        StepReachable(c, s2, MasterRun(0, 0));
      }
    }
  }

  /** The only worker empties the buffer and exits, with more masters asleep than it can signal. */
  lemma {:induction false} Drain(c: Settings, s: State) returns (t: State)
    requires ReachableBySignals(c, s) && s.workers == [Ready] && c.total <= s.next
    requires |s.buffer| < Count(s.masters, Asleep)
    ensures ReachableBySignals(c, t) && Doomed(c, t)
    decreases |s.buffer|
  {
    CountZero(s.masters, Asleep);
    var m :| 0 <= m < |s.masters| && s.masters[m] == Asleep;
    t := Do(c, s, WorkerRun(0, m));
    StepReachable(c, s, WorkerRun(0, m));
    if s.buffer != [] {
      CountSet(s.masters, m, Woken, Asleep);
      t := Drain(c, t);
    } else {
      assert DoomedMaster(c, t, m);
    }
  }

  lemma {:induction false} CountAsleep(n: nat)
    ensures Count(AllAsleep(n), Asleep) == n
  {
    if n != 0 {
      assert AllAsleep(n)[1..] == AllAsleep(n - 1);
      CountAsleep(n - 1);
    }
  }

  /** After workers 0 and 1 have looked once, only master 0 and worker 0 run. */
  predicate OneServes(acts: seq<Action>) {
    && 2 <= |acts| && acts[0] == WorkerRun(0, 0) && acts[1] == WorkerRun(1, 0)
    && forall i :: 2 <= i < |acts| ==> acts[i] == MasterRun(0, 0) || acts[i] == WorkerRun(0, 0)
  }

  lemma Extend(c: Settings, acts: seq<Action>, s: State, a: Action) returns (more: seq<Action>)
    requires After(c, acts) == Some(s) && Enabled(c, s, a)
    ensures more == acts + [a] && After(c, more) == Some(Do(c, s, a))
  {
    more := acts + [a];
    assert more[..|acts|] == acts;
  }

  lemma Serve(c: Settings, acts: seq<Action>, s: State, a: Action) returns (more: seq<Action>)
    requires OneServes(acts) && After(c, acts) == Some(s) && Enabled(c, s, a)
    requires a == MasterRun(0, 0) || a == WorkerRun(0, 0)
    ensures OneServes(more) && After(c, more) == Some(Do(c, s, a))
  {
    more := Extend(c, acts, s, a);
  }

  lemma BothSleep(c: Settings) returns (acts: seq<Action>, s: State)
    requires 2 <= c.workers && 0 < c.total
    ensures OneServes(acts) && After(c, acts) == Some(s)
    ensures s == Init(c).(workers := AllReady(c.workers)[0 := Asleep][1 := Asleep])
  {
    s := Do(c, Init(c), WorkerRun(0, 0));
    acts := Extend(c, [], Init(c), WorkerRun(0, 0));
    acts := Extend(c, acts, s, WorkerRun(1, 0));
    s := Do(c, s, WorkerRun(1, 0));
  }

  /** Workers 0 and 1 asleep, k items produced and all consumed. */
  ghost predicate Alternated(c: Settings, s: State, k: nat) {
    && s.next == |s.consumed| == k && s.buffer == [] && s.masters == AllReady(c.masters)
    && |s.workers| == c.workers && 2 <= c.workers && s.workers[1] == Asleep
    && s.workers[0] == if k < c.total then Asleep else Ready
  }

  lemma NobodyToSignal(c: Settings, s: State)
    requires s.masters == AllReady(c.masters)
    ensures CanSignal(s.masters, Asleep, 0)
    ensures 0 < c.masters ==> Signal(s.masters, Asleep, Woken, 0) == s.masters[0 := Ready] == s.masters
  {
  }

  /** Master 0 produces an item and signals worker 0; worker 0 takes it; and it goes back to sleep. */
  lemma OneProduced(c: Settings, s: State)
    requires s.buffer == [] && s.next < c.total && 0 < c.capacity && 0 < c.masters && s.masters == AllReady(c.masters)
    requires 0 < |s.workers| && s.workers[0] == Asleep
    ensures Enabled(c, s, MasterRun(0, 0))
    ensures Do(c, s, MasterRun(0, 0)) ==
            s.(next := s.next + 1, buffer := [s.next], workers := s.workers[0 := Woken],
               produced := s.produced + [s.next])
  {
    NobodyToSignal(c, s);
  }

  lemma OneTaken(c: Settings, s: State)
    requires |s.buffer| == 1 && 0 < c.masters && s.masters == AllReady(c.masters)
    requires 0 < |s.workers| && s.workers[0] == Woken
    ensures Enabled(c, s, WorkerRun(0, 0))
    ensures Do(c, s, WorkerRun(0, 0)) ==
            s.(buffer := [], workers := s.workers[0 := Ready], consumed := s.consumed + [s.buffer[0]])
  {
    NobodyToSignal(c, s);
  }

  lemma BackToSleep(c: Settings, s: State)
    requires s.buffer == [] && s.next < c.total && s.masters == AllReady(c.masters)
    requires 0 < |s.workers| && s.workers[0] == Ready
    ensures Enabled(c, s, WorkerRun(0, 0)) && Do(c, s, WorkerRun(0, 0)) == s.(workers := s.workers[0 := Asleep])
  {
    NobodyToSignal(c, s);
  }

  /** Workers 0 and 1 sleep; each item wakes worker 0 only, which takes them all. */
  lemma {:induction false} Alternate(c: Settings, k: nat) returns (acts: seq<Action>, s: State)
    requires 0 < c.masters && 2 <= c.workers && 0 < c.capacity && k <= c.total && 0 < c.total
    ensures OneServes(acts) && After(c, acts) == Some(s) && Alternated(c, s, k)
  {
    if k == 0 {
      acts, s := BothSleep(c);
    } else {
      acts, s := Alternate(c, k - 1);
      OneProduced(c, s);
      acts := Serve(c, acts, s, MasterRun(0, 0));
      s := Do(c, s, MasterRun(0, 0));
      OneTaken(c, s);
      acts := Serve(c, acts, s, WorkerRun(0, 0));
      s := Do(c, s, WorkerRun(0, 0));
      if k < c.total {
        BackToSleep(c, s);
        acts := Serve(c, acts, s, WorkerRun(0, 0));
        s := Do(c, s, WorkerRun(0, 0));
      }
    }
  }

  lemma InitReachable(c: Settings)
    ensures ReachableBySignals(c, Init(c))
  {
    assert After(c, []) == Some(Init(c));
  }

  /** A worker with no master, or a master with no slot, sleeps at once. */
  lemma WorkerDoomedAtOnce(c: Settings) returns (t: State)
    requires c.masters == 0 < c.workers && 0 < c.total
    ensures ReachableBySignals(c, t) && DoomedWorker(c, t, 0)
  {
    InitReachable(c);
    StepReachable(c, Init(c), WorkerRun(0, 0));
    t := Do(c, Init(c), WorkerRun(0, 0));
  }

  lemma MasterDoomedAtOnce(c: Settings) returns (t: State)
    requires c.capacity == 0 < c.masters && 0 < c.total
    ensures ReachableBySignals(c, t) && DoomedMaster(c, t, 0)
  {
    InitReachable(c);
    StepReachable(c, Init(c), MasterRun(0, 0));
    t := Do(c, Init(c), MasterRun(0, 0));
  }

  lemma MasterDoomedAtOnlyWorker(c: Settings) returns (t: State)
    requires 1 <= c.capacity && c.capacity + 1 < c.masters && c.workers == 1 && c.capacity < c.total
    ensures ReachableBySignals(c, t) && Doomed(c, t)
  {
    var s := Advance(c, c.total);
    CountAsleep(c.masters);
    CountSet(AllAsleep(c.masters), 0, Ready, Asleep);
    t := Drain(c, s);
  }

  lemma WorkerDoomedBesideAnother(c: Settings) returns (t: State)
    requires 0 < c.masters && 2 <= c.workers && 0 < c.capacity && 0 < c.total
    ensures ReachableBySignals(c, t) && DoomedWorker(c, t, 1)
  {
    var acts;
    acts, t := Alternate(c, c.total);
    assert NoSpurious(acts);
  }

  /** Outside those settings some schedule leaves a thread asleep for good. */
  lemma SomeoneDoomed(c: Settings) returns (t: State)
    requires !EveryoneExits(c)
    ensures ReachableBySignals(c, t) && Doomed(c, t)
  {
    if c.masters == 0 {
      t := WorkerDoomedAtOnce(c);
    } else if c.capacity == 0 {
      t := MasterDoomedAtOnce(c);
    } else if c.workers == 0 {
      t := Block(c, 1);
      assert DoomedMaster(c, t, 0);
    } else if c.workers == 1 {
      t := MasterDoomedAtOnlyWorker(c);
    } else {
      t := WorkerDoomedBesideAnother(c);
    }
  }

  /** The buffered items are distinct, so k of them reach k numbers beyond the smallest. */
  lemma {:induction false} BufferSpan(c: Settings, s: State, i: nat)
    requires Items(c, s) && i < |s.buffer|
    ensures s.buffer[0] + i <= s.buffer[i]
  {
    if i != 0 {
      BufferSpan(c, s, i - 1);
    }
  }

  lemma QuiescentAllExited(c: Settings, acts: seq<Action>, s: State)
    requires EveryoneExits(c) && After(c, acts) == Some(s) && Quiescent(c, s)
    ensures AllExited(s)
  {
    FinerSafety(c, acts, s);
    QuiescentThreads(c, s);
    CountZero(s.masters, Woken);
    CountZero(s.workers, Woken);
    if m :| 0 <= m < |s.masters| && s.masters[m] == Asleep {
      TallyAtLeast(s.masters, m, Committed);
      assert |s.buffer| == c.capacity;
      assert s.workers[0] == Exited;
      BufferSpan(c, s, |s.buffer| - 1);
      assert false;
    }
    if w :| 0 <= w < |s.workers| && s.workers[w] == Asleep {
      assert false;
    }
  }

  /** All threads always exit for exactly these settings, spurious wakeups or not. */
  lemma AllThreadsExitIff(c: Settings)
    ensures EveryoneExits(c) <==> forall s :: ReachableBySignals(c, s) && Quiescent(c, s) ==> AllExited(s)
    ensures EveryoneExits(c) <==> forall s :: Reachable(c, s) && Quiescent(c, s) ==> AllExited(s)
  {
    if EveryoneExits(c) {
      forall s | Reachable(c, s) && Quiescent(c, s)
        ensures AllExited(s)
      {
        var acts :| After(c, acts) == Some(s);
        QuiescentAllExited(c, acts, s);
      }
      assert forall s :: ReachableBySignals(c, s) ==> Reachable(c, s);
    } else {
      var s := SomeoneDoomed(c);
      var t := RunsToQuiescence(c, s);
      assert !AllExited(t);
      assert Reachable(c, t);
    }
  }

  lemma Overproduced(c: Settings, acts: seq<Action>, s: State)
    requires After(c, acts) == Some(s) && c.total < s.next
    ensures CanOverproduce(c)
  {
    FinerSafety(c, acts, s);
    BufferedWereProduced(c, s);
    assert |s.consumed| > 0;
  }

  /** After the last item asked for, k masters that slept past their check produce one more each. */
  lemma {:induction false} Overproduce(c: Settings, k: nat) returns (s: State)
    requires CanOverproduce(c) && k < c.masters
    ensures ReachableBySignals(c, s) && s.next == c.total + k && |s.buffer| == c.capacity
    ensures s.masters == AllReady(k + 1) + AllAsleep(c.masters - k - 1) && s.workers == AllReady(c.workers)
  {
    if k == 0 {
      s := Advance(c, c.total);
    } else {
      var s0 := Overproduce(c, k - 1);
      StepReachable(c, s0, WorkerRun(0, k));
      var s1 := Do(c, s0, WorkerRun(0, k));
      StepReachable(c, s1, MasterRun(k, 0));
      s := Do(c, s1, MasterRun(k, 0));
    }
  }

  /** item_to_produce can pass total_items for exactly these settings, and then by as much as it ever can. */
  lemma OverproductionIff(c: Settings)
    ensures CanOverproduce(c) <==> exists s :: ReachableBySignals(c, s) && c.total < s.next
    ensures CanOverproduce(c) ==> exists s :: ReachableBySignals(c, s) && s.next == c.total + Others(c)
  {
    if CanOverproduce(c) {
      var s := Overproduce(c, c.masters - 1);
    }
    forall s | ReachableBySignals(c, s) && c.total < s.next
      ensures CanOverproduce(c)
    {
      var acts :| NoSpurious(acts) && After(c, acts) == Some(s);
      Overproduced(c, acts, s);
    }
  }

  // ---- items that stay in the buffer

  /** Some worker empties the buffer and so wakes a master that slept past its check. */
  lemma {:induction false} EmptyBuffer(c: Settings, s: State) returns (t: State)
    requires ReachableBySignals(c, s) && s.workers == AllReady(c.workers) && 0 < c.workers && c.total <= s.next
    requires Woken in s.masters || (Asleep in s.masters && s.buffer != [])
    ensures ReachableBySignals(c, t) && t.workers == AllReady(c.workers) && c.total <= t.next
    ensures t.buffer == [] && Woken in t.masters
    decreases |s.buffer|
  {
    if s.buffer == [] {
      t := s;
    } else {
      SomeSleeper(s.masters, Asleep);
      var wake: nat :| CanSignal(s.masters, Asleep, wake);
      StepReachable(c, s, WorkerRun(0, wake));
      t := Do(c, s, WorkerRun(0, wake));
      SignalKeepsWoken(s.masters, wake);
      assert t.workers == AllReady(c.workers);
      t := EmptyBuffer(c, t);
    }
  }

  lemma SignalKeepsWoken(threads: seq<Thread>, wake: nat)
    requires CanSignal(threads, Asleep, wake) && (Woken in threads || Asleep in threads)
    ensures Woken in Signal(threads, Asleep, Woken, wake)
  {
    if Asleep in threads {
      assert Signal(threads, Asleep, Woken, wake)[wake] == Woken;
    }
  }

  /** With the buffer empty and nothing left to produce, the first k workers exit. */
  lemma {:induction false} ExitWorkers(c: Settings, s: State, k: nat) returns (t: State)
    requires ReachableBySignals(c, s) && s.workers == AllReady(c.workers) && s.buffer == [] && c.total <= s.next
    requires k <= c.workers
    ensures ReachableBySignals(c, t)
    ensures t == s.(workers := seq(k, _ => Exited) + AllReady(c.workers - k))
  {
    if k == 0 {
      t := s;
      assert seq(0, _ => Exited) + AllReady(c.workers) == s.workers;
    } else {
      var before := ExitWorkers(c, s, k - 1);
      SomeSleeper(before.masters, Asleep);
      var wake: nat :| CanSignal(before.masters, Asleep, wake);
      StepReachable(c, before, WorkerRun(k - 1, wake));
      t := Do(c, before, WorkerRun(k - 1, wake));
      assert t.workers == seq(k, _ => Exited) + AllReady(c.workers - k);
    }
  }

  /** A woken master produces, and no worker is left to take the item. */
  lemma ProduceLast(c: Settings, s: State) returns (t: State)
    requires ReachableBySignals(c, s) && s.workers == seq(c.workers, _ => Exited)
    requires s.buffer == [] && 0 < c.capacity && c.total <= s.next && Woken in s.masters
    ensures ReachableBySignals(c, t) && Stranded(c, t)
  {
    var m :| 0 <= m < |s.masters| && s.masters[m] == Woken;
    StepReachable(c, s, MasterRun(m, 0));
    t := Do(c, s, MasterRun(m, 0));
    assert t.buffer[0] == s.next;
  }

  lemma SomeItemStranded(c: Settings) returns (t: State)
    requires CanOverproduce(c)
    ensures ReachableBySignals(c, t) && Stranded(c, t)
  {
    var s := Advance(c, c.total);
    assert s.masters[1] == Asleep;
    s := EmptyBuffer(c, s);
    s := ExitWorkers(c, s, c.workers);
    assert s.workers == seq(c.workers, _ => Exited);
    t := ProduceLast(c, s);
  }

  /** An item beyond total_items can stay in the buffer for good, for exactly the settings under
      which one can be produced, spurious wakeups or not. */
  lemma LeftoverIff(c: Settings)
    ensures CanOverproduce(c) <==> exists s :: ReachableBySignals(c, s) && Quiescent(c, s) && Leftover(c, s)
    ensures CanOverproduce(c) <==> exists s :: Reachable(c, s) && Quiescent(c, s) && Leftover(c, s)
  {
    if CanOverproduce(c) {
      var s := SomeItemStranded(c);
      var t := RunsToQuiescence(c, s);
      assert Leftover(c, t) && Reachable(c, t);
    }
    forall s | Reachable(c, s) && Leftover(c, s)
      ensures CanOverproduce(c)
    {
      var acts :| After(c, acts) == Some(s);
      Safety(c, acts, s);
      Overproduced(c, acts, s);
    }
    assert forall s :: ReachableBySignals(c, s) ==> Reachable(c, s);
  }
}
