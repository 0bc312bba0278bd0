/** What every schedule keeps, and what it has achieved once no thread can step. */
module MasterWorkerSafety {
  import opened Conditions
  import opened Tallies
  import opened MasterWorker

  ghost predicate Increasing(items: seq<nat>) {
    forall i, j :: 0 <= i < j < |items| ==> items[i] < items[j]
  }

  /** Items are numbered consecutively; each is in the buffer or consumed, never both. */
  ghost predicate Items(c: Settings, s: State) {
    && |s.masters| == c.masters && |s.workers| == c.workers
    && |s.buffer| <= c.capacity
    && |s.produced| == s.next
    && (forall i :: 0 <= i < s.next ==> s.produced[i] == i)
    && multiset(s.consumed) + multiset(s.buffer) == multiset(s.produced)
    && Increasing(s.buffer)
    && (forall i :: 0 <= i < |s.buffer| ==> s.buffer[i] < s.next)
  }

  /** No wakeup is lost: while a thread sleeps, every unit of work it could do
      already has a signalled thread on its way. */
  ghost predicate Wakeups(c: Settings, s: State) {
    && (Asleep in s.masters ==> c.capacity - |s.buffer| <= Count(s.masters, Woken))
    && (Asleep in s.workers ==> |s.buffer| <= Count(s.workers, Woken))
  }

  ghost predicate Exits(c: Settings, s: State) {
    && (Exited in s.masters ==> c.total <= s.next)
    && (Exited in s.workers ==> c.total <= s.next && forall i :: 0 <= i < |s.buffer| ==> c.total <= s.buffer[i])
  }

  /** A master past its check that has not produced yet. */
  function Committed(t: Thread): nat {
    if t == Asleep || t == Woken then 1 else 0
  }

  function Committing(s: State): nat {
    Tally(s.masters, Committed)
  }

  function Others(c: Settings): nat {
    if c.masters == 0 then 0 else c.masters - 1
  }

  ghost predicate Overshoot(c: Settings, s: State) {
    && (c.total <= s.next ==> s.next - c.total + Committing(s) <= Others(c))
    && (0 < Committing(s) ==> c.capacity < c.total)
  }

  ghost predicate Inv(c: Settings, s: State) {
    Items(c, s) && Wakeups(c, s) && Exits(c, s) && Overshoot(c, s)
  }

  lemma InitKeepsInv(c: Settings)
    ensures Inv(c, Init(c))
  {
    TallyZero(Init(c).masters, Committed);
  }

  lemma SignalCounts(threads: seq<Thread>, wake: nat)
    requires CanSignal(threads, Asleep, wake)
    ensures Asleep in threads ==> Count(Signal(threads, Asleep, Woken, wake), Woken) == Count(threads, Woken) + 1
    ensures Asleep !in threads ==> Signal(threads, Asleep, Woken, wake) == threads
    ensures forall t :: t in Signal(threads, Asleep, Woken, wake) && t != Woken ==> t in threads
    ensures Tally(Signal(threads, Asleep, Woken, wake), Committed) == Tally(threads, Committed)
  {
    if Asleep in threads {
      CountSet(threads, wake, Woken, Woken);
      TallySet(threads, wake, Woken, Committed);
    }
  }

  lemma MoveCounts(threads: seq<Thread>, i: nat, t: Thread)
    requires i < |threads|
    ensures Count(threads[i := t], Woken) + Is(Woken)(threads[i]) == Count(threads, Woken) + Is(Woken)(t)
    ensures Tally(threads[i := t], Committed) + Committed(threads[i]) == Tally(threads, Committed) + Committed(t)
    ensures forall u :: u in threads[i := t] && u != t ==> u in threads
  {
    CountSet(threads, i, t, Woken);
    TallySet(threads, i, t, Committed);
  }

  lemma ProduceKeepsItems(c: Settings, s: State, m: nat, wake: nat)
    requires Items(c, s) && m < |s.masters| && |s.buffer| < c.capacity
    ensures Items(c, Produce(s, m, wake))
  {
    var t := Produce(s, m, wake);
    assert multiset(t.produced) == multiset(s.produced) + multiset{s.next};
    assert multiset(t.buffer) == multiset(s.buffer) + multiset{s.next};
  }

  lemma ProduceKeepsInv(c: Settings, s: State, m: nat, wake: nat)
    requires Inv(c, s) && Enabled(c, s, MasterRun(m, wake))
    requires !(s.masters[m] == Ready && s.next >= c.total) && |s.buffer| < c.capacity
    ensures Inv(c, Produce(s, m, wake))
  {
    ProduceKeepsItems(c, s, m, wake);
    MoveCounts(s.masters, m, Ready);
    SignalCounts(s.workers, wake);
    CommittedOthers(s.masters, m);
  }

  /** The other masters past their check number at most all masters but this one. */
  lemma CommittedOthers(masters: seq<Thread>, m: nat)
    requires m < |masters|
    ensures Tally(masters[m := Ready], Committed) <= |masters| - 1
  {
    var rest := masters[..m] + masters[m + 1..];
    assert masters[m := Ready] == masters[..m] + ([Ready] + masters[m + 1..]);
    TallyConcat(masters[..m], [Ready] + masters[m + 1..], Committed);
    TallyConcat([Ready], masters[m + 1..], Committed);
    TallyConcat(masters[..m], masters[m + 1..], Committed);
    TallyAtMost(rest, Committed, 1);
    assert Tally([Ready], Committed) == 0;
  }

  lemma BufferedWereProduced(c: Settings, s: State)
    requires Items(c, s)
    ensures |s.consumed| + |s.buffer| == s.next
  {
    assert |multiset(s.consumed) + multiset(s.buffer)| == |s.consumed| + |s.buffer|;
    assert |multiset(s.produced)| == |s.produced|;
  }

  lemma BlockKeepsInv(c: Settings, s: State, m: nat, wake: nat)
    requires Inv(c, s) && Enabled(c, s, MasterRun(m, wake))
    requires (s.masters[m] == Ready && s.next >= c.total) || |s.buffer| >= c.capacity
    ensures Inv(c, RunMaster(c, s, m, wake))
  {
    var t := RunMaster(c, s, m, wake);
    BufferedWereProduced(c, s);
    MoveCounts(s.masters, m, t.masters[m]);
    if s.masters[m] == Woken {
      TallyAtLeast(s.masters, m, Committed);
    }
    assert Items(c, t) && Exits(c, t);
    assert Wakeups(c, t) && Overshoot(c, t);
  }

  lemma ConsumeKeepsItems(c: Settings, s: State, w: nat, wake: nat)
    requires Items(c, s) && w < |s.workers| && s.buffer != []
    ensures Items(c, Consume(s, w, wake))
  {
    var last := |s.buffer| - 1;
    assert s.buffer == s.buffer[..last] + [s.buffer[last]];
  }

  lemma WorkerKeepsInv(c: Settings, s: State, w: nat, wake: nat)
    requires Inv(c, s) && Enabled(c, s, WorkerRun(w, wake))
    ensures Inv(c, RunWorker(c, s, w, wake))
  {
    MoveCounts(s.workers, w, RunWorker(c, s, w, wake).workers[w]);
    if s.buffer != [] {
      SignalCounts(s.masters, wake);
      ConsumeKeepsItems(c, s, w, wake);
    }
  }

  lemma StepKeepsInv(c: Settings, s: State, a: Action)
    requires Inv(c, s) && Enabled(c, s, a)
    ensures Inv(c, Do(c, s, a))
  {
    match a
    case MasterRun(m, wake) =>
      if (s.masters[m] == Ready && s.next >= c.total) || |s.buffer| >= c.capacity {
        BlockKeepsInv(c, s, m, wake);
      } else {
        ProduceKeepsInv(c, s, m, wake);
      }
    case WorkerRun(w, wake) => WorkerKeepsInv(c, s, w, wake);
    case SpuriousMaster(m) => MoveCounts(s.masters, m, Woken);
    case SpuriousWorker(w) => MoveCounts(s.workers, w, Woken);
  }

  /** Every schedule, spurious wakeups included, keeps the invariant. */
  lemma {:induction false} Safety(c: Settings, acts: seq<Action>, s: State)
    requires After(c, acts) == Some(s)
    ensures Inv(c, s)
    decreases |acts|
  {
    if acts == [] {
      InitKeepsInv(c);
    } else {
      var front := acts[..|acts| - 1];
      var before := After(c, front).value;
      Safety(c, front, before);
      StepKeepsInv(c, before, acts[|acts| - 1]);
    }
  }

  /** The buffer is a stack: a worker takes the newest unconsumed item. */
  lemma ConsumesNewest(c: Settings, acts: seq<Action>, s: State, w: nat, wake: nat)
    requires After(c, acts) == Some(s) && Enabled(c, s, WorkerRun(w, wake)) && s.buffer != []
    ensures var t := Do(c, s, WorkerRun(w, wake));
            exists item :: t.consumed == s.consumed + [item] && item < s.next && item !in s.consumed &&
                           forall other :: 0 <= other < s.next && other !in t.consumed ==> other < item
  {
    Safety(c, acts, s);
    var last := |s.buffer| - 1;
    var item := s.buffer[last];
    var t := Do(c, s, WorkerRun(w, wake));
    ConsumeKeepsItems(c, s, w, wake);
    assert item in multiset(s.buffer);
    OnceOnly(s.produced, item);
    assert multiset(s.consumed)[item] == 0;
    forall other | 0 <= other < s.next && other !in t.consumed
      ensures other < item
    {
      assert t.produced[other] == other;
      assert other in multiset(t.produced);
      assert other in multiset(t.buffer);
      assert other in t.buffer;
    }
    assert t.consumed == s.consumed + [item];
  }

  /** In the list 0, 1, 2, ... every entry occurs once. */
  lemma {:induction false} OnceOnly(items: seq<nat>, x: nat)
    requires forall i :: 0 <= i < |items| ==> items[i] == i
    ensures multiset(items)[x] == if x < |items| then 1 else 0
  {
    if items != [] {
      var last := |items| - 1;
      assert items == items[..last] + [items[last]];
      OnceOnly(items[..last], x);
    }
  }

  /** At quiescence every item asked for was produced once and consumed once. */
  lemma ExactlyOnce(c: Settings, acts: seq<Action>, s: State)
    requires 0 < c.masters && 0 < c.workers && 0 < c.capacity
    requires After(c, acts) == Some(s) && Quiescent(c, s)
    ensures forall item :: 0 <= item < c.total ==>
              multiset(s.produced)[item] == 1 && multiset(s.consumed)[item] == 1
  {
    Safety(c, acts, s);
    QuiescentThreads(c, s);
    CountZero(s.masters, Woken);
    CountZero(s.workers, Woken);
    AllProduced(c, s);
    forall item | 0 <= item < c.total
      ensures multiset(s.produced)[item] == 1 && multiset(s.consumed)[item] == 1
    {
      OnceOnly(s.produced, item);
      assert s.workers[0] == Asleep || s.workers[0] == Exited;
      assert item !in s.buffer;
      assert multiset(s.buffer)[item] == 0;
    }
  }

  lemma AllProduced(c: Settings, s: State)
    requires 0 < c.masters && 0 < c.workers && 0 < c.capacity
    requires Inv(c, s) && Woken !in s.masters && Woken !in s.workers && Ready !in s.masters && Ready !in s.workers
    ensures c.total <= s.next
    ensures Asleep in s.workers ==> s.buffer == []
    ensures Asleep in s.masters ==> |s.buffer| == c.capacity && Asleep !in s.workers
  {
    CountZero(s.masters, Woken);
    CountZero(s.workers, Woken);
    assert s.masters[0] in s.masters && s.workers[0] in s.workers;
    if Asleep in s.masters {
      assert s.workers[0] == Exited;
    } else {
      assert s.masters[0] == Exited;
    }
  }

  /** Masters past the check still produce, but no more of them than there are other masters. */
  lemma NextBounded(c: Settings, acts: seq<Action>, s: State)
    requires After(c, acts) == Some(s)
    ensures s.next <= c.total + Others(c)
  {
    Safety(c, acts, s);
  }
}
