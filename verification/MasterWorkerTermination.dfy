/** Without spurious wakeups every schedule of masters and workers is finite. */
module MasterWorkerTermination {
  import opened Ranking
  import opened Tallies
  import opened MasterWorker
  import opened MasterWorkerSafety

  /** Steps a thread can still take before it sleeps, exits or moves an item. */
  function Wakefulness(t: Thread): nat {
    match t
    case Woken => 2
    case Ready => 1
    case _ => 0
  }

  function Awake(s: State): nat {
    Tally(s.masters, Wakefulness) + Tally(s.workers, Wakefulness)
  }

  function MostAwake(c: Settings): nat {
    2 * (c.masters + c.workers)
  }

  /** Twice the items that may yet be produced, plus the items yet to be consumed. */
  function Work(c: Settings, s: State): int {
    2 * (c.total + Others(c) - s.next) + |s.buffer|
  }

  function Rank(c: Settings, s: State): int {
    Work(c, s) * (MostAwake(c) + 1) + Awake(s)
  }

  lemma AwakeBounded(c: Settings, s: State)
    requires Items(c, s)
    ensures Awake(s) <= MostAwake(c)
  {
    TallyAtMost(s.masters, Wakefulness, 2);
    TallyAtMost(s.workers, Wakefulness, 2);
  }

  /** A step either uses up work or leaves the work alone and a thread less awake. */
  lemma StepMakesProgress(c: Settings, s: State, a: Action)
    requires Inv(c, s) && Enabled(c, s, a) && !a.Spurious()
    ensures Work(c, Do(c, s, a)) < Work(c, s) ||
            (Work(c, Do(c, s, a)) == Work(c, s) && Awake(Do(c, s, a)) < Awake(s))
  {
    var t := Do(c, s, a);
    match a
    case MasterRun(m, wake) =>
      if t.next == s.next {
        TallySet(s.masters, m, t.masters[m], Wakefulness);
      }
    case WorkerRun(w, wake) =>
      if s.buffer == [] {
        TallySet(s.workers, w, t.workers[w], Wakefulness);
      }
  }

  lemma RankDrops(c: Settings, s: State, a: Action)
    requires Inv(c, s) && Enabled(c, s, a) && !a.Spurious()
    ensures Rank(c, Do(c, s, a)) < Rank(c, s)
  {
    var t := Do(c, s, a);
    StepMakesProgress(c, s, a);
    StepKeepsInv(c, s, a);
    AwakeBounded(c, t);
    Lexicographic(Work(c, t), Awake(t), Work(c, s), Awake(s), MostAwake(c) + 1);
  }

  /** However the threads are scheduled, they take at most this many steps. */
  function MostSteps(c: Settings): nat {
    2 * (c.total + Others(c)) * (MostAwake(c) + 1) + c.masters + c.workers
  }

  lemma {:induction false} EveryRunIsFinite(c: Settings, acts: seq<Action>, s: State)
    requires NoSpurious(acts) && After(c, acts) == Some(s)
    ensures |acts| + Rank(c, s) <= MostSteps(c) && 0 <= Rank(c, s)
    decreases |acts|
  {
    if acts == [] {
      RankAtStart(c);
    } else {
      var front := acts[..|acts| - 1];
      var last := acts[|acts| - 1];
      assert last in acts;
      var before := After(c, front).value;
      EveryRunIsFinite(c, front, before);
      Safety(c, front, before);
      RankDrops(c, before, last);
    }
    NextBounded(c, acts, s);
    RankNotNegative(c, s);
  }

  lemma RankAtStart(c: Settings)
    ensures Rank(c, Init(c)) <= MostSteps(c)
  {
    var s := Init(c);
    TallyAtMost(s.masters, Wakefulness, 1);
    TallyAtMost(s.workers, Wakefulness, 1);
    assert Work(c, s) == 2 * (c.total + Others(c));
  }

  lemma RankNotNegative(c: Settings, s: State)
    requires s.next <= c.total + Others(c)
    ensures 0 <= Rank(c, s)
  {
  }

  /** Left to run, the threads reach a state where none can step. */
  lemma {:induction false} RunsToQuiescence(c: Settings, s: State) returns (t: State)
    requires ReachableBySignals(c, s)
    ensures ReachableBySignals(c, t) && Quiescent(c, t)
    ensures Doomed(c, s) ==> Doomed(c, t)
    ensures Stranded(c, s) ==> Stranded(c, t)
    decreases Rank(c, s)
  {
    var acts :| NoSpurious(acts) && After(c, acts) == Some(s);
    Safety(c, acts, s);
    if Quiescent(c, s) {
      t := s;
    } else {
      EveryRunIsFinite(c, acts, s);
      var a: Action :| !a.Spurious() && Enabled(c, s, a);
      StepReachable(c, s, a);
      RankDrops(c, s, a);
      forall i {
        StaysDoomed(c, s, a, i);
      }
      if Stranded(c, s) {
        StaysStranded(c, s, a);
      }
      t := RunsToQuiescence(c, Do(c, s, a));
    }
  }

  /** No item will be consumed any more, or none produced. */
  ghost predicate NoConsumption(c: Settings, s: State) {
    c.capacity == 0 || forall w :: 0 <= w < |s.workers| ==> s.workers[w] == Exited
  }

  ghost predicate NoProduction(c: Settings, s: State) {
    forall m :: 0 <= m < |s.masters| ==> s.masters[m] == Exited || (s.masters[m] == Ready && c.total <= s.next)
  }

  /** The master, or the worker, sleeps and nothing will ever signal it. */
  ghost predicate DoomedMaster(c: Settings, s: State, m: nat) {
    m < |s.masters| && s.masters[m] == Asleep && NoConsumption(c, s)
  }

  ghost predicate DoomedWorker(c: Settings, s: State, w: nat) {
    w < |s.workers| && s.workers[w] == Asleep && NoProduction(c, s)
  }

  ghost predicate Doomed(c: Settings, s: State) {
    (exists m :: DoomedMaster(c, s, m)) || (exists w :: DoomedWorker(c, s, w))
  }

  lemma StaysDoomed(c: Settings, s: State, a: Action, i: nat)
    requires Inv(c, s) && Enabled(c, s, a) && !a.Spurious()
    ensures DoomedMaster(c, s, i) ==> DoomedMaster(c, Do(c, s, a), i)
    ensures DoomedWorker(c, s, i) ==> DoomedWorker(c, Do(c, s, a), i)
  {
  }

  /** A thread doomed at one point of a schedule still sleeps at every later one: it is never signalled. */
  lemma {:induction false} DoomedForGood(c: Settings, acts: seq<Action>, s: State, more: seq<Action>, t: State, i: nat)
    requires After(c, acts) == Some(s) && NoSpurious(more) && After(c, acts + more) == Some(t)
    ensures DoomedMaster(c, s, i) ==> i < |t.masters| && t.masters[i] == Asleep && DoomedMaster(c, t, i)
    ensures DoomedWorker(c, s, i) ==> i < |t.workers| && t.workers[i] == Asleep && DoomedWorker(c, t, i)
    decreases |more|
  {
    if more == [] {
      assert acts + more == acts;
    } else {
      var front, a := more[..|more| - 1], more[|more| - 1];
      assert (acts + more)[..|acts + more| - 1] == acts + front && a in more;
      var before := After(c, acts + front).value;
      DoomedForGood(c, acts, s, front, before, i);
      Safety(c, acts + front, before);
      StaysDoomed(c, before, a, i);
    }
  }

  /** An item beyond those asked for is in the buffer; stranded, if no worker is left to take it. */
  ghost predicate Leftover(c: Settings, s: State) {
    exists i :: 0 <= i < |s.buffer| && c.total <= s.buffer[i]
  }

  ghost predicate Stranded(c: Settings, s: State) {
    Leftover(c, s) && forall w :: 0 <= w < |s.workers| ==> s.workers[w] == Exited
  }

  lemma StaysStranded(c: Settings, s: State, a: Action)
    requires Stranded(c, s) && Enabled(c, s, a) && !a.Spurious()
    ensures Stranded(c, Do(c, s, a))
  {
    var i :| 0 <= i < |s.buffer| && c.total <= s.buffer[i];
    assert c.total <= Do(c, s, a).buffer[i];
  }
}
