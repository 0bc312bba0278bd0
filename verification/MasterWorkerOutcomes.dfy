/** What each critical section does in any run, told by what has been produced and consumed so far. */
module MasterWorkerOutcomes {
  import opened Conditions
  import opened Tallies
  import opened MasterWorker
  import opened MasterWorkerSafety

  /** How many items are produced and not consumed. */
  function Unconsumed(s: State): int {
    |s.produced| - |s.consumed|
  }

  lemma BufferedAre(c: Settings, acts: seq<Action>, s: State)
    requires After(c, acts) == Some(s)
    ensures Unconsumed(s) == |s.buffer| && |s.produced| == s.next
  {
    Safety(c, acts, s);
    BufferedWereProduced(c, s);
  }

  /** One sleeper, the one picked, is woken if there is any. */
  predicate OneWoken(before: seq<Thread>, after: seq<Thread>, wake: nat) {
    if Asleep in before then wake < |before| && before[wake] == Asleep && after == before[wake := Woken]
    else after == before
  }

  /** A master exits if and only if it has just taken the mutex and all items asked for are produced;
      otherwise it sleeps if as many items are unconsumed as there are slots, and else produces the
      next number and wakes a sleeping worker, if any. */
  lemma MasterOutcome(c: Settings, acts: seq<Action>, s: State, m: nat, wake: nat)
    requires After(c, acts) == Some(s) && m < |s.masters| && (s.masters[m] == Ready || s.masters[m] == Woken)
    requires Asleep in s.workers ==> wake < |s.workers| && s.workers[wake] == Asleep
    ensures Enabled(c, s, MasterRun(m, wake))
    ensures var t := Do(c, s, MasterRun(m, wake));
            t.consumed == s.consumed &&
            if s.masters[m] == Ready && c.total <= |s.produced| then
              t.masters == s.masters[m := Exited] && t.workers == s.workers && t.produced == s.produced
            else if c.capacity <= Unconsumed(s) then
              t.masters == s.masters[m := Asleep] && t.workers == s.workers && t.produced == s.produced
            else
              && t.masters == s.masters[m := Ready] && OneWoken(s.workers, t.workers, wake)
              && t.produced == s.produced + [|s.produced|]
  {
    BufferedAre(c, acts, s);
  }

  /** A worker consumes the newest unconsumed item, if there is any, and wakes a sleeping master, if any.
      Otherwise it sleeps while items are still to be produced; and once none is, it exits if it has
      just taken the mutex, and goes round again if it comes from its wait. */
  lemma WorkerOutcome(c: Settings, acts: seq<Action>, s: State, w: nat, wake: nat)
    requires After(c, acts) == Some(s) && w < |s.workers| && (s.workers[w] == Ready || s.workers[w] == Woken)
    requires Asleep in s.masters ==> wake < |s.masters| && s.masters[wake] == Asleep
    ensures Enabled(c, s, WorkerRun(w, wake))
    ensures var t := Do(c, s, WorkerRun(w, wake));
            t.produced == s.produced &&
            if 0 < Unconsumed(s) then
              && t.workers == s.workers[w := Ready] && OneWoken(s.masters, t.masters, wake)
              && |t.consumed| == |s.consumed| + 1 && s.consumed <= t.consumed
              && var item := t.consumed[|s.consumed|];
                 item in s.produced && item !in s.consumed &&
                 forall other :: other in s.produced && other !in s.consumed ==> other <= item
            else
              && t.consumed == s.consumed && t.masters == s.masters
              && t.workers == s.workers[w := if |s.produced| < c.total then Asleep
                                             else if s.workers[w] == Ready then Exited else Ready]
  {
    BufferedAre(c, acts, s);
    if 0 < Unconsumed(s) {
      TakesNewest(c, acts, s, w, wake);
    }
  }

  lemma TakesNewest(c: Settings, acts: seq<Action>, s: State, w: nat, wake: nat)
    requires After(c, acts) == Some(s) && Enabled(c, s, WorkerRun(w, wake)) && s.buffer != []
    ensures var item := s.buffer[|s.buffer| - 1];
            item in s.produced && item !in s.consumed &&
            forall other :: other in s.produced && other !in s.consumed ==> other <= item
  {
    Safety(c, acts, s);
    ConsumesNewest(c, acts, s, w, wake);
    var item, t := s.buffer[|s.buffer| - 1], Do(c, s, WorkerRun(w, wake));
    assert t.consumed[|s.consumed|] == item;
    assert s.produced[item] == item;
    forall other | other in s.produced && other !in s.consumed
      ensures other <= item
    {
      assert other == item || other !in t.consumed;
    }
  }
}
