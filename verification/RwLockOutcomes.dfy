/** What each operation of the locks does in any run, told by where the threads are and not by the lock's fields. */
module RwLockOutcomes {
  import opened Conditions
  import opened Tallies
  import opened RwLock
  import opened RwLockSafety

  predicate IsInside(t: Thread) {
    t == Entered || t == Stamped || t == Leaving
  }

  predicate IsWaiting(t: Thread) {
    t == Asleep || t == Woken
  }

  predicate NoneInside(threads: seq<Thread>) {
    forall i :: 0 <= i < |threads| ==> !IsInside(threads[i])
  }

  predicate NoneWaiting(threads: seq<Thread>) {
    forall i :: 0 <= i < |threads| ==> !IsWaiting(threads[i])
  }

  lemma Nobody(threads: seq<Thread>)
    ensures Tally(threads, Inside) == 0 <==> NoneInside(threads)
    ensures Tally(threads, Pending) == 0 <==> NoneWaiting(threads)
  {
    TallyZero(threads, Inside);
    TallyZero(threads, Pending);
  }

  /** A writer that has the mutex gets the lock if and only if no reader and no writer has it, on
      arrival and after each wakeup alike, under either preference; else it sleeps. */
  lemma WriterAdmittedIff(c: Settings, acts: seq<Action>, s: State, w: nat)
    requires After(c, acts) == Some(s) && w < |s.ws| && (s.ws[w] == Outside || s.ws[w] == Woken)
    ensures Enabled(c, s, WriterLock(w))
    ensures var t, free := Do(c, s, WriterLock(w)), NoneInside(s.rs) && NoneInside(s.ws);
            && t.ws == s.ws[w := if free then Entered else Asleep] && t.rs == s.rs && t.log == s.log
            && t.order == s.order + if s.ws[w] == Outside then [Registered(w)] else []
  {
    Safety(c, acts, s);
    Nobody(s.rs);
    Nobody(s.ws);
  }

  /** A reader gets the lock if and only if no writer has it and, under writer preference, none waits for it. */
  lemma ReaderAdmittedIff(c: Settings, acts: seq<Action>, s: State, r: nat)
    requires After(c, acts) == Some(s) && r < |s.rs| && (s.rs[r] == Outside || s.rs[r] == Woken)
    ensures Enabled(c, s, ReaderLock(r))
    ensures var t := Do(c, s, ReaderLock(r));
            var free := NoneInside(s.ws) && (c.preference == ForWriters ==> NoneWaiting(s.ws));
            && t.rs == s.rs[r := if free then Entered else Asleep] && t.ws == s.ws && t.log == s.log
            && t.order == s.order + if free then [Admitted(r)] else []
  {
    Safety(c, acts, s);
    Nobody(s.ws);
  }

  /** A reader that unlocks wakes one sleeping writer if and only if it is the last reader inside. */
  lemma ReaderUnlockWakes(c: Settings, acts: seq<Action>, s: State, r: nat, wake: nat)
    requires After(c, acts) == Some(s) && r < |s.rs| && s.rs[r] == Leaving
    requires Asleep in s.ws ==> wake < |s.ws| && s.ws[wake] == Asleep
    ensures Enabled(c, s, ReaderUnlock(r, wake))
    ensures var t := Do(c, s, ReaderUnlock(r, wake));
            && t.rs == s.rs[r := Finished] && t.log == s.log && t.order == s.order
            && t.ws == if NoneInside(t.rs) && Asleep in s.ws then s.ws[wake := Woken] else s.ws
  {
    Safety(c, acts, s);
    TallySet(s.rs, r, Finished, Inside);
    Nobody(s.rs[r := Finished]);
  }

  predicate AllWoken(before: seq<Thread>, after: seq<Thread>) {
    && |before| == |after|
    && forall i :: 0 <= i < |before| ==> after[i] == if before[i] == Asleep then Woken else before[i]
  }

  /** A writer that unlocks wakes one sleeping writer; and all sleeping readers, under writer
      preference only if no writer waits. */
  lemma WriterUnlockWakes(c: Settings, acts: seq<Action>, s: State, w: nat, wake: nat)
    requires After(c, acts) == Some(s) && w < |s.ws| && s.ws[w] == Leaving
    requires Asleep in s.ws ==> wake < |s.ws| && s.ws[wake] == Asleep
    ensures Enabled(c, s, WriterUnlock(w, wake))
    ensures var t := Do(c, s, WriterUnlock(w, wake));
            && t.ws == (if Asleep in s.ws then s.ws[w := Finished][wake := Woken] else s.ws[w := Finished])
            && (if c.preference == ForReaders || NoneWaiting(s.ws) then AllWoken(s.rs, t.rs) else t.rs == s.rs)
            && t.log == s.log && t.order == s.order + [Unlocked(w)]
  {
    Safety(c, acts, s);
    Alone(c, s, w);
    Nobody(s.rs);
    Nobody(s.ws);
    SignalPast(s.ws, w, wake);
  }

  lemma SignalPast(threads: seq<Thread>, w: nat, wake: nat)
    requires w < |threads| && threads[w] != Asleep && CanSignal(threads, Asleep, wake)
    ensures Signal(threads[w := Finished], Asleep, Woken, wake) ==
            if Asleep in threads then threads[w := Finished][wake := Woken] else threads[w := Finished]
    ensures Asleep in threads ==> !NoneWaiting(threads)
  {
    assert Asleep in threads ==> IsWaiting(threads[wake]);
  }

  /** Inside, each thread notes when it came in and then when it leaves, and touches nothing else. */
  lemma ReaderStampOutcome(c: Settings, s: State, r: nat)
    requires r < |s.rs| && (s.rs[r] == Entered || s.rs[r] == Stamped)
    ensures Enabled(c, s, ReaderStamp(r))
    ensures Do(c, s, ReaderStamp(r)) ==
            if s.rs[r] == Entered then s.(rs := s.rs[r := Stamped], log := s.log + [ReaderAcquired(r)])
            else s.(rs := s.rs[r := Leaving], log := s.log + [ReaderReleased(r)])
  {
  }

  lemma WriterStampOutcome(c: Settings, s: State, w: nat)
    requires w < |s.ws| && (s.ws[w] == Entered || s.ws[w] == Stamped)
    ensures Enabled(c, s, WriterStamp(w))
    ensures Do(c, s, WriterStamp(w)) ==
            if s.ws[w] == Entered then s.(ws := s.ws[w := Stamped], log := s.log + [WriterAcquired(w)])
            else s.(ws := s.ws[w := Leaving], log := s.log + [WriterReleased(w)])
  {
  }
}
