/** Without spurious wakeups every run of either lock ends, with all threads through. */
module RwLockTermination {
  import opened Conditions
  import opened Ranking
  import opened Tallies
  import opened RwLock
  import opened RwLockSafety

  /** Passages a thread still has to make: in, two notes, out. */
  function Passages(t: Thread): nat {
    match t
    case Entered => 3
    case Stamped => 2
    case Leaving => 1
    case Finished => 0
    case _ => 4
  }

  function Restless(t: Thread): nat {
    if t in {Outside, Woken} then 1 else 0
  }

  function Remaining(s: State): nat {
    Tally(s.rs, Passages) + Tally(s.ws, Passages)
  }

  function Awake(s: State): nat {
    Tally(s.rs, Restless) + Tally(s.ws, Restless)
  }

  function Threads(c: Settings): nat {
    c.readers + c.writers
  }

  function Rank(c: Settings, s: State): int {
    Remaining(s) * (Threads(c) + 1) + Awake(s)
  }

  /** However the threads are scheduled, they take at most this many steps. */
  function MostSteps(c: Settings): nat {
    4 * Threads(c) * (Threads(c) + 1) + Threads(c)
  }

  lemma SignalPassages(threads: seq<Thread>, wake: nat)
    ensures Tally(Signal(threads, Asleep, Woken, wake), Passages) == Tally(threads, Passages)
  {
    if wake < |threads| && threads[wake] == Asleep {
      TallySet(threads, wake, Woken, Passages);
    }
  }

  lemma BroadcastPassages(threads: seq<Thread>)
    ensures Tally(Broadcast(threads, Asleep, Woken), Passages) == Tally(threads, Passages)
  {
  }

  lemma ReaderProgress(c: Settings, s: State, a: Action)
    requires Enabled(c, s, a) && (a.ReaderLock? || a.ReaderStamp? || a.ReaderUnlock?)
    ensures Remaining(Do(c, s, a)) < Remaining(s) ||
            (Remaining(Do(c, s, a)) == Remaining(s) && Awake(Do(c, s, a)) < Awake(s))
  {
    var t := Do(c, s, a);
    TallySet(s.rs, a.r, t.rs[a.r], Passages);
    TallySet(s.rs, a.r, t.rs[a.r], Restless);
    if a.ReaderUnlock? {
      SignalPassages(s.ws, a.wake);
    }
  }

  lemma WriterProgress(c: Settings, s: State, a: Action)
    requires Enabled(c, s, a) && (a.WriterLock? || a.WriterStamp?)
    ensures Remaining(Do(c, s, a)) < Remaining(s) ||
            (Remaining(Do(c, s, a)) == Remaining(s) && Awake(Do(c, s, a)) < Awake(s))
  {
    var t := Do(c, s, a);
    TallySet(s.ws, a.w, t.ws[a.w], Passages);
    TallySet(s.ws, a.w, t.ws[a.w], Restless);
  }

  lemma WriterUnlockProgress(c: Settings, s: State, w: nat, wake: nat)
    requires Enabled(c, s, WriterUnlock(w, wake))
    ensures Remaining(UnlockWriter(c, s, w, wake)) < Remaining(s)
  {
    TallySet(s.ws, w, Finished, Passages);
    SignalPassages(s.ws[w := Finished], wake);
    BroadcastPassages(s.rs);
  }

  lemma RankDrops(c: Settings, s: State, a: Action)
    requires Inv(c, s) && Enabled(c, s, a) && !a.Spurious()
    ensures Rank(c, Do(c, s, a)) < Rank(c, s)
  {
    var t := Do(c, s, a);
    if a.WriterUnlock? {
      WriterUnlockProgress(c, s, a.w, a.wake);
    } else if a.WriterLock? || a.WriterStamp? {
      WriterProgress(c, s, a);
    } else {
      ReaderProgress(c, s, a);
    }
    StepKeepsInv(c, s, a);
    TallyAtMost(t.rs, Restless, 1);
    TallyAtMost(t.ws, Restless, 1);
    Lexicographic(Remaining(t), Awake(t), Remaining(s), Awake(s), Threads(c) + 1);
  }

  lemma RankAtStart(c: Settings)
    ensures Rank(c, Init(c)) <= MostSteps(c)
  {
    var s := Init(c);
    TallyAtMost(s.rs, Passages, 4);
    TallyAtMost(s.ws, Passages, 4);
    TallyAtMost(s.rs, Restless, 1);
    TallyAtMost(s.ws, Restless, 1);
    Multiply(Remaining(s), 4 * Threads(c), Threads(c) + 1);
  }

  lemma RankNotNegative(c: Settings, s: State)
    ensures 0 <= Rank(c, s)
  {
    ProductNotNegative(Remaining(s), Threads(c) + 1);
  }

  lemma {:induction false} EveryRunIsFinite(c: Settings, acts: seq<Action>, s: State)
    requires NoSpurious(acts) && After(c, acts) == Some(s)
    ensures |acts| + Rank(c, s) <= MostSteps(c) && 0 <= Rank(c, s)
    decreases |acts|
  {
    RankNotNegative(c, s);
    if acts == [] {
      RankAtStart(c);
    } else {
      var front := acts[..|acts| - 1];
      var last := acts[|acts| - 1];
      assert last in acts;
      var before := After(c, front).value;
      EveryRunIsFinite(c, front, before);
      Safety(c, front, before);
      RankDrops(c, before, last);
    }
  }

  /** Where a run ends, every thread is through and the lock is as it was at the start. */
  lemma QuiescentMeansFinished(c: Settings, acts: seq<Action>, s: State)
    requires After(c, acts) == Some(s) && Quiescent(c, s)
    ensures |s.rs| == c.readers && forall r :: 0 <= r < c.readers ==> s.rs[r] == Finished
    ensures |s.ws| == c.writers && forall w :: 0 <= w < c.writers ==> s.ws[w] == Finished
    ensures s.readers == 0 && s.writers_waiting == 0 && s.writer_active == 0
  {
    Safety(c, acts, s);
    QuiescentThreads(c, s);
    TallyZero(s.rs, Inside);
    TallyZero(s.ws, Inside);
    TallyZero(s.ws, Pending);
    assert forall w :: 0 <= w < c.writers ==> s.ws[w] in s.ws;
    assert forall r :: 0 <= r < c.readers ==> s.rs[r] in s.rs;
  }
}
