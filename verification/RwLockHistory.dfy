/** What the two logs of a run look like: who was inside together, and who overtook whom. */
module RwLockHistory {
  import opened Tallies
  import opened RwLock
  import opened RwLockSafety

  /** The writer's note at position i is followed at once by its release, or is the last so far. */
  ghost predicate Closed(s: State, i: nat)
    requires i < |s.log| && s.log[i].WriterAcquired?
  {
    var w := s.log[i].w;
    if i + 1 < |s.log| then s.log[i + 1] == WriterReleased(w)
    else w < |s.ws| && s.ws[w] == Stamped
  }

  ghost predicate LogInv(s: State) {
    && (forall i :: 0 <= i < |s.log| && s.log[i].WriterAcquired? ==> Closed(s, i))
    && (forall w :: 0 <= w < |s.ws| && s.ws[w] in {Stamped, Leaving, Finished} ==> WriterAcquired(w) in s.log)
  }

  lemma OtherStepsKeepLog(c: Settings, s: State, a: Action)
    requires Counts(c, s) && LogInv(s) && Enabled(c, s, a) && !a.WriterStamp? && !a.ReaderStamp?
    ensures LogInv(Do(c, s, a))
  {
    var t := Do(c, s, a);
    assert t.log == s.log;
    forall w | 0 <= w < |s.ws|
      ensures s.ws[w] == Stamped <==> t.ws[w] == Stamped
      ensures t.ws[w] in {Stamped, Leaving, Finished} ==> s.ws[w] in {Stamped, Leaving, Finished}
    {
    }
    forall i | 0 <= i < |t.log| && t.log[i].WriterAcquired?
      ensures Closed(t, i)
    {
      assert Closed(s, i);
    }
  }

  lemma StampKeepsLog(c: Settings, s: State, a: Action)
    requires Counts(c, s) && LogInv(s) && Enabled(c, s, a) && (a.WriterStamp? || a.ReaderStamp?)
    ensures LogInv(Do(c, s, a))
  {
    var t := Do(c, s, a);
    var last := |s.log| - 1;
    assert forall note :: note in s.log ==> note in t.log;
    assert t.log[|s.log|] in t.log;
    forall i | 0 <= i < |t.log| && t.log[i].WriterAcquired?
      ensures Closed(t, i)
    {
      if i < |s.log| {
        assert Closed(s, i);
        if i == last {
          Alone(c, s, s.log[i].w);
        }
      }
    }
  }

  lemma {:induction false} LogSafety(c: Settings, acts: seq<Action>, s: State)
    requires After(c, acts) == Some(s)
    ensures Inv(c, s) && LogInv(s)
    decreases |acts|
  {
    Safety(c, acts, s);
    if acts != [] {
      var front := acts[..|acts| - 1];
      var last := acts[|acts| - 1];
      var before := After(c, front).value;
      LogSafety(c, front, before);
      if last.WriterStamp? || last.ReaderStamp? {
        StampKeepsLog(c, before, last);
      } else {
        OtherStepsKeepLog(c, before, last);
      }
    }
  }

  /** At the end, every writer's release time is its acquire time plus one, under either lock. */
  lemma WriterStampsAdjacent(c: Settings, acts: seq<Action>, s: State, w: nat)
    requires After(c, acts) == Some(s) && w < |s.ws| && s.ws[w] in {Leaving, Finished}
    ensures WriterAcquired(w) in s.log
    ensures forall i :: 0 <= i < |s.log| && s.log[i] == WriterAcquired(w) ==>
              i + 1 < |s.log| && s.log[i + 1] == WriterReleased(w)
  {
    LogSafety(c, acts, s);
    forall i | 0 <= i < |s.log| && s.log[i] == WriterAcquired(w)
      ensures i + 1 < |s.log| && s.log[i + 1] == WriterReleased(w)
    {
      assert Closed(s, i);
    }
  }

  // ---- writers registered before a reader is admitted

  ghost predicate UnlockedAfter(s: State, w: nat, i: int, j: int) {
    exists k :: 0 <= k < |s.order| && i < k < j && s.order[k] == Unlocked(w)
  }

  /** A writer has registered before; it is finished only once its unlock follows. */
  ghost predicate OrderInv(s: State) {
    forall i :: 0 <= i < |s.order| && s.order[i].Registered? ==>
      && s.order[i].w < |s.ws|
      && s.ws[s.order[i].w] != Outside
      && (s.ws[s.order[i].w] == Finished ==> UnlockedAfter(s, s.order[i].w, i, |s.order|))
  }

  /** No reader was admitted between a writer's registration and its unlock. */
  ghost predicate NoneOvertaken(s: State) {
    forall i, j :: 0 <= i < j < |s.order| && s.order[i].Registered? && s.order[j].Admitted? ==>
      UnlockedAfter(s, s.order[i].w, i, j)
  }

  lemma OrderGrows(c: Settings, s: State, a: Action)
    requires Enabled(c, s, a)
    ensures s.order <= Do(c, s, a).order && |Do(c, s, a).order| <= |s.order| + 1
    ensures forall w, i, j :: UnlockedAfter(s, w, i, j) ==> UnlockedAfter(Do(c, s, a), w, i, j)
  {
  }

  /** What a step does to one writer, and when it registers or unlocks. */
  lemma WriterMoves(c: Settings, s: State, a: Action, w: nat)
    requires Enabled(c, s, a) && w < |s.ws|
    ensures |Do(c, s, a).ws| == |s.ws|
    ensures s.ws[w] != Outside ==> Do(c, s, a).ws[w] != Outside
    ensures s.ws[w] != Finished && Do(c, s, a).ws[w] == Finished ==> Do(c, s, a).order == s.order + [Unlocked(w)]
  {
  }

  lemma Registers(c: Settings, s: State, a: Action, w: nat)
    requires Enabled(c, s, a) && Do(c, s, a).order == s.order + [Registered(w)]
    ensures w < |s.ws| == |Do(c, s, a).ws| && Do(c, s, a).ws[w] in {Asleep, Entered}
  {
    assert Do(c, s, a).order[|s.order|] == Registered(w);
  }

  lemma StepKeepsOrder(c: Settings, s: State, a: Action)
    requires OrderInv(s) && Enabled(c, s, a)
    ensures OrderInv(Do(c, s, a))
  {
    var t := Do(c, s, a);
    OrderGrows(c, s, a);
    forall i | 0 <= i < |t.order| && t.order[i].Registered?
      ensures t.order[i].w < |t.ws| && t.ws[t.order[i].w] != Outside
      ensures t.ws[t.order[i].w] == Finished ==> UnlockedAfter(t, t.order[i].w, i, |t.order|)
    {
      var w := t.order[i].w;
      if i < |s.order| {
        assert s.order[i] == t.order[i];
        WriterMoves(c, s, a, w);
        if t.ws[w] == Finished && s.ws[w] != Finished {
          assert t.order[|s.order|] == Unlocked(w);
        }
      } else {
        assert t.order == s.order + [Registered(w)];
        Registers(c, s, a, w);
      }
    }
  }

  /** A reader admitted with no writer waiting or inside overtakes none. */
  lemma AdmissionOvertakesNone(c: Settings, s: State, a: Action)
    requires OrderInv(s) && NoneOvertaken(s) && Enabled(c, s, a)
    requires a.ReaderLock? && !ReaderMustWait(c, s) ==>
               forall w :: 0 <= w < |s.ws| ==> Pending(s.ws[w]) == 0 && Inside(s.ws[w]) == 0
    ensures NoneOvertaken(Do(c, s, a))
  {
    var t := Do(c, s, a);
    OrderGrows(c, s, a);
    forall i, j | 0 <= i < j < |t.order| && t.order[i].Registered? && t.order[j].Admitted?
      ensures UnlockedAfter(t, t.order[i].w, i, j)
    {
      assert t.order[i] == s.order[i];
      if j < |s.order| {
        assert UnlockedAfter(s, s.order[i].w, i, j);
      } else {
        var w := s.order[i].w;
        assert Pending(s.ws[w]) == 0 && Inside(s.ws[w]) == 0;
        assert UnlockedAfter(s, w, i, j);
      }
    }
  }

  /** Writer preference: in every run, whenever a reader is admitted, every writer that
      registered earlier has already unlocked. */
  lemma {:induction false} WritersNotOvertaken(c: Settings, acts: seq<Action>, s: State)
    requires c.preference == ForWriters && After(c, acts) == Some(s)
    ensures OrderInv(s) && NoneOvertaken(s)
    decreases |acts|
  {
    if acts != [] {
      var front := acts[..|acts| - 1];
      var last := acts[|acts| - 1];
      var before := After(c, front).value;
      WritersNotOvertaken(c, front, before);
      Safety(c, front, before);
      StepKeepsOrder(c, before, last);
      TallyZero(before.ws, Pending);
      TallyZero(before.ws, Inside);
      AdmissionOvertakesNone(c, before, last);
    }
  }

  // ---- reader preference: overtaking happens for exactly these numbers of threads

  predicate CanOvertake(c: Settings) {
    && c.preference == ForReaders
    && ((2 <= c.readers && 1 <= c.writers) || (1 <= c.readers && 2 <= c.writers))
  }

  lemma Then(c: Settings, acts: seq<Action>, s: State, a: Action) returns (more: seq<Action>, t: State)
    requires After(c, acts) == Some(s) && Enabled(c, s, a)
    ensures more == acts + [a] && t == Do(c, s, a) && After(c, more) == Some(t)
  {
    more, t := acts + [a], Do(c, s, a);
    assert more[..|acts|] == acts;
  }

  /** With a reader inside, a second reader goes past a sleeping writer. */
  lemma PastSleeper(c: Settings) returns (acts: seq<Action>, s: State)
    requires c.preference == ForReaders && 2 <= c.readers && 1 <= c.writers
    ensures After(c, acts) == Some(s) && !NoneOvertaken(s)
  {
    acts, s := Then(c, [], Init(c), ReaderLock(0));
    acts, s := Then(c, acts, s, WriterLock(0));
    acts, s := Then(c, acts, s, ReaderLock(1));
    assert s.order == [Admitted(0), Registered(0), Admitted(1)];
    Overtaken(s, 1, 2);
  }

  /** One writer inside, another asleep. */
  lemma TwoWriters(c: Settings) returns (acts: seq<Action>, s: State)
    requires c.preference == ForReaders && 1 <= c.readers && 2 <= c.writers
    ensures After(c, acts) == Some(s) && |s.rs| == c.readers && |s.ws| == c.writers
    ensures s.rs[0] == Outside && s.ws[0] == Leaving && s.ws[1] == Asleep && s.readers == 0
    ensures s.order == [Registered(0), Registered(1)]
  {
    acts, s := Then(c, [], Init(c), WriterLock(0));
    acts, s := Then(c, acts, s, WriterLock(1));
    acts, s := Then(c, acts, s, WriterStamp(0));
    acts, s := Then(c, acts, s, WriterStamp(0));
  }

  /** A reader goes past the sleeping writer as soon as the other one unlocks. */
  lemma PastWoken(c: Settings) returns (acts: seq<Action>, s: State)
    requires c.preference == ForReaders && 1 <= c.readers && 2 <= c.writers
    ensures After(c, acts) == Some(s) && !NoneOvertaken(s)
  {
    acts, s := TwoWriters(c);
    acts, s := Then(c, acts, s, WriterUnlock(0, 1));
    assert s.order == [Registered(0), Registered(1), Unlocked(0)];
    acts, s := Then(c, acts, s, ReaderLock(0));
    assert s.order == [Registered(0), Registered(1), Unlocked(0), Admitted(0)];
    Overtaken(s, 1, 3);
  }

  lemma Overtaken(s: State, i: nat, j: nat)
    requires i < j < |s.order| && s.order[i].Registered? && s.order[j].Admitted?
    requires forall k :: i < k < j ==> s.order[k] != Unlocked(s.order[i].w)
    ensures !NoneOvertaken(s)
  {
  }

  lemma ReaderOvertakes(c: Settings) returns (acts: seq<Action>, s: State)
    requires CanOvertake(c)
    ensures After(c, acts) == Some(s) && !NoneOvertaken(s)
  {
    if 2 <= c.readers {
      acts, s := PastSleeper(c);
    } else {
      acts, s := PastWoken(c);
    }
  }

  /** A single writer waits only for the single reader, which is then already in. */
  ghost predicate PairInv(s: State) {
    |s.rs| == 1 && |s.ws| == 1 && Pending(s.ws[0]) == 1 ==> s.rs[0] in {Entered, Stamped, Leaving, Finished}
  }

  lemma PairStep(c: Settings, s: State, a: Action)
    requires Inv(c, s) && PairInv(s) && Enabled(c, s, a)
    ensures PairInv(Do(c, s, a))
  {
    if |s.rs| == 1 && |s.ws| == 1 {
      assert s.rs[1..] == [] && s.ws[1..] == [];
    }
  }

  lemma PairAdmission(c: Settings, s: State, r: nat)
    requires c.readers == 0 || c.writers == 0 || (c.readers == 1 && c.writers == 1)
    requires Inv(c, s) && PairInv(s) && Enabled(c, s, ReaderLock(r)) && !ReaderMustWait(c, s)
    ensures forall w :: 0 <= w < |s.ws| ==> Pending(s.ws[w]) == 0 && Inside(s.ws[w]) == 0
  {
  }

  lemma {:induction false} PairNotOvertaken(c: Settings, acts: seq<Action>, s: State)
    requires c.preference == ForReaders && !CanOvertake(c) && After(c, acts) == Some(s)
    ensures OrderInv(s) && NoneOvertaken(s) && PairInv(s)
    decreases |acts|
  {
    if acts != [] {
      var front := acts[..|acts| - 1];
      var before := After(c, front).value;
      PairNotOvertaken(c, front, before);
      Safety(c, front, before);
      var last := acts[|acts| - 1];
      StepKeepsOrder(c, before, last);
      PairStep(c, before, last);
      if last.ReaderLock? && !ReaderMustWait(c, before) {
        PairAdmission(c, before, last.r);
      }
      AdmissionOvertakesNone(c, before, last);
    }
  }

  /** No run of either lock lets a reader overtake a registered writer, for exactly these settings. */
  lemma OvertakingIff(c: Settings)
    ensures CanOvertake(c) <==> exists acts, s :: After(c, acts) == Some(s) && !NoneOvertaken(s)
  {
    if CanOvertake(c) {
      var acts, s := ReaderOvertakes(c);
    } else {
      forall acts, s | After(c, acts) == Some(s)
        ensures NoneOvertaken(s)
      {
        if c.preference == ForWriters {
          WritersNotOvertaken(c, acts, s);
        } else {
          PairNotOvertaken(c, acts, s);
        }
      }
    }
  }
}
