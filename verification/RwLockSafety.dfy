/** Exact counting, mutual exclusion and the absence of lost wakeups, for both locks. */
module RwLockSafety {
  import opened Conditions
  import opened Tallies
  import opened RwLock

  function Inside(t: Thread): nat {
    if t in {Entered, Stamped, Leaving} then 1 else 0
  }

  /** A writer counted in writers_waiting. */
  function Pending(t: Thread): nat {
    if t in {Asleep, Woken} then 1 else 0
  }

  /** The lock's three fields count its threads exactly, and writers exclude everyone. */
  ghost predicate Counts(c: Settings, s: State) {
    && |s.rs| == c.readers && |s.ws| == c.writers
    && s.readers == Tally(s.rs, Inside)
    && s.writers_waiting == Tally(s.ws, Pending)
    && s.writer_active == Tally(s.ws, Inside)
    && s.writer_active <= 1
    && (s.writer_active == 1 ==> s.readers == 0)
  }

  /** Whoever sleeps has somebody who will signal it, or a signal on its way. */
  ghost predicate Wakeups(c: Settings, s: State) {
    && (Asleep in s.ws ==> s.writer_active == 1 || s.readers > 0 || Woken in s.ws)
    && (Asleep in s.rs ==> s.writer_active == 1 || (c.preference == ForWriters && s.writers_waiting > 0))
  }

  ghost predicate Inv(c: Settings, s: State) {
    Counts(c, s) && Wakeups(c, s)
  }

  lemma SignalCounts(threads: seq<Thread>, wake: nat)
    requires CanSignal(threads, Asleep, wake)
    ensures Tally(Signal(threads, Asleep, Woken, wake), Inside) == Tally(threads, Inside)
    ensures Tally(Signal(threads, Asleep, Woken, wake), Pending) == Tally(threads, Pending)
    ensures Asleep in threads ==> Woken in Signal(threads, Asleep, Woken, wake)
  {
    if Asleep in threads {
      TallySet(threads, wake, Woken, Inside);
      TallySet(threads, wake, Woken, Pending);
      assert Signal(threads, Asleep, Woken, wake)[wake] == Woken;
    }
  }

  lemma BroadcastCounts(threads: seq<Thread>)
    ensures Tally(Broadcast(threads, Asleep, Woken), Inside) == Tally(threads, Inside)
    ensures Asleep !in Broadcast(threads, Asleep, Woken)
  {
  }

  lemma MoveCounts(threads: seq<Thread>, i: nat, t: Thread)
    requires i < |threads|
    ensures Tally(threads[i := t], Inside) + Inside(threads[i]) == Tally(threads, Inside) + Inside(t)
    ensures Tally(threads[i := t], Pending) + Pending(threads[i]) == Tally(threads, Pending) + Pending(t)
    ensures forall u :: u in threads[i := t] && u != t ==> u in threads
    ensures forall u :: u in threads && u != threads[i] ==> u in threads[i := t]
  {
    TallySet(threads, i, t, Inside);
    TallySet(threads, i, t, Pending);
    forall u | u in threads && u != threads[i]
      ensures u in threads[i := t]
    {
      var j :| 0 <= j < |threads| && threads[j] == u;
      assert threads[i := t][j] == u;
    }
  }

  lemma ReaderStepKeepsInv(c: Settings, s: State, a: Action)
    requires Inv(c, s) && Enabled(c, s, a)
    requires a.ReaderLock? || a.ReaderStamp? || a.ReaderUnlock? || a.SpuriousReader?
    ensures Inv(c, Do(c, s, a))
  {
    var t := Do(c, s, a);
    MoveCounts(s.rs, a.r, t.rs[a.r]);
    TallyAtLeast(s.rs, a.r, Inside);
    if a.ReaderUnlock? {
      SignalCounts(s.ws, a.wake);
    }
  }

  lemma WriterStepKeepsInv(c: Settings, s: State, a: Action)
    requires Inv(c, s) && Enabled(c, s, a)
    requires a.WriterLock? || a.WriterStamp? || a.SpuriousWriter?
    ensures Inv(c, Do(c, s, a))
  {
    var t := Do(c, s, a);
    MoveCounts(s.ws, a.w, t.ws[a.w]);
    TallyAtLeast(s.ws, a.w, Inside);
    assert t.ws[a.w] in t.ws;
  }

  lemma WriterUnlockKeepsInv(c: Settings, s: State, w: nat, wake: nat)
    requires Inv(c, s) && Enabled(c, s, WriterUnlock(w, wake))
    ensures Inv(c, UnlockWriter(c, s, w, wake))
  {
    MoveCounts(s.ws, w, Finished);
    TallyAtLeast(s.ws, w, Inside);
    SignalCounts(s.ws[w := Finished], wake);
    BroadcastCounts(s.rs);
    if s.writers_waiting == 0 {
      TallyZero(s.ws, Pending);
    }
  }

  lemma StepKeepsInv(c: Settings, s: State, a: Action)
    requires Inv(c, s) && Enabled(c, s, a)
    ensures Inv(c, Do(c, s, a))
  {
    match a
    case ReaderLock(_) => ReaderStepKeepsInv(c, s, a);
    case ReaderStamp(_) => ReaderStepKeepsInv(c, s, a);
    case ReaderUnlock(_, _) => ReaderStepKeepsInv(c, s, a);
    case SpuriousReader(_) => ReaderStepKeepsInv(c, s, a);
    case WriterLock(_) => WriterStepKeepsInv(c, s, a);
    case WriterStamp(_) => WriterStepKeepsInv(c, s, a);
    case SpuriousWriter(_) => WriterStepKeepsInv(c, s, a);
    case WriterUnlock(w, wake) => WriterUnlockKeepsInv(c, s, w, wake);
  }

  lemma InitInv(c: Settings)
    ensures Inv(c, Init(c))
  {
    TallyZero(Init(c).rs, Inside);
    TallyZero(Init(c).ws, Inside);
    TallyZero(Init(c).ws, Pending);
  }

  /** Every schedule of either lock, spurious wakeups included, keeps the invariant. */
  lemma {:induction false} Safety(c: Settings, acts: seq<Action>, s: State)
    requires After(c, acts) == Some(s)
    ensures Inv(c, s)
    decreases |acts|
  {
    if acts == [] {
      InitInv(c);
    } else {
      var front := acts[..|acts| - 1];
      var before := After(c, front).value;
      Safety(c, front, before);
      StepKeepsInv(c, before, acts[|acts| - 1]);
    }
  }

  /** A writer inside is alone: no reader and no other writer is inside with it. */
  lemma MutualExclusion(c: Settings, acts: seq<Action>, s: State, w: nat)
    requires After(c, acts) == Some(s) && w < |s.ws| && Inside(s.ws[w]) == 1
    ensures forall r :: 0 <= r < |s.rs| ==> Inside(s.rs[r]) == 0
    ensures forall v :: 0 <= v < |s.ws| && v != w ==> Inside(s.ws[v]) == 0
  {
    Safety(c, acts, s);
    Alone(c, s, w);
  }

  lemma Alone(c: Settings, s: State, w: nat)
    requires Counts(c, s) && w < |s.ws| && Inside(s.ws[w]) == 1
    ensures s.writer_active == 1
    ensures forall r :: 0 <= r < |s.rs| ==> Inside(s.rs[r]) == 0
    ensures forall v :: 0 <= v < |s.ws| && v != w ==> Inside(s.ws[v]) == 0
  {
    TallyAtLeast(s.ws, w, Inside);
    TallyZero(s.rs, Inside);
    forall v | 0 <= v < |s.ws| && v != w
      ensures Inside(s.ws[v]) == 0
    {
      TallyAtLeastTwo(s.ws, v, w, Inside);
    }
  }
}
