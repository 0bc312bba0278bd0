/**
  The bounded LIFO buffer shared by the master and worker threads.

  One atomic step is the code from taking the mutex (or being handed it back by
  pthread_cond_wait) to the next pthread_cond_wait or unlock.  A thread asleep on
  its condition variable is Asleep; once signalled, and until it has the mutex
  again, it is Woken.  Masters wait on not_full only, workers on not_empty only.
 */
module MasterWorker {
  import opened Conditions
  import opened Tallies

  datatype Settings = Settings(total: nat, capacity: nat, masters: nat, workers: nat)

  datatype Thread = Ready | Asleep | Woken | Exited

  /** next is item_to_produce; buffer holds the curr_buf_size filled slots;
      produced and consumed list the items in the order they were printed. */
  datatype State = State(
    next: nat,
    buffer: seq<nat>,
    masters: seq<Thread>,
    workers: seq<Thread>,
    produced: seq<nat>,
    consumed: seq<nat>)

  /** wake names the sleeper that a signal picks, and is ignored where none is asleep. */
  datatype Action =
    | MasterRun(m: nat, wake: nat)
    | WorkerRun(w: nat, wake: nat)
    | SpuriousMaster(m: nat)
    | SpuriousWorker(w: nat)
  {
    predicate Spurious() {
      SpuriousMaster? || SpuriousWorker?
    }
  }

  function Init(c: Settings): State {
    State(0, [], seq(c.masters, _ => Ready), seq(c.workers, _ => Ready), [], [])
  }

  predicate Runnable(threads: seq<Thread>, i: nat) {
    i < |threads| && (threads[i] == Ready || threads[i] == Woken)
  }

  predicate Enabled(c: Settings, s: State, a: Action) {
    match a
    case MasterRun(m, wake) => Runnable(s.masters, m) && CanSignal(s.workers, Asleep, wake)
    case WorkerRun(w, wake) => Runnable(s.workers, w) && CanSignal(s.masters, Asleep, wake)
    case SpuriousMaster(m) => m < |s.masters| && s.masters[m] == Asleep
    case SpuriousWorker(w) => w < |s.workers| && s.workers[w] == Asleep
  }

  /** A master that just took the mutex checks for leftover work; one handed the mutex
      back by its wait does not check again. */
  function RunMaster(c: Settings, s: State, m: nat, wake: nat): State
    requires m < |s.masters|
  {
    if s.masters[m] == Ready && s.next >= c.total then
      s.(masters := s.masters[m := Exited])
    else if |s.buffer| >= c.capacity then
      s.(masters := s.masters[m := Asleep])
    else
      Produce(s, m, wake)
  }

  function Produce(s: State, m: nat, wake: nat): State
    requires m < |s.masters|
  {
    State(s.next + 1, s.buffer + [s.next], s.masters[m := Ready], Signal(s.workers, Asleep, Woken, wake),
          s.produced + [s.next], s.consumed)
  }

  function RunWorker(c: Settings, s: State, w: nat, wake: nat): State
    requires w < |s.workers|
  {
    if s.buffer != [] then
      Consume(s, w, wake)
    else if s.next < c.total then
      s.(workers := s.workers[w := Asleep])
    else if s.workers[w] == Ready then
      s.(workers := s.workers[w := Exited])
    else
      s.(workers := s.workers[w := Ready])
  }

  function Consume(s: State, w: nat, wake: nat): State
    requires w < |s.workers| && s.buffer != []
  {
    var last := |s.buffer| - 1;
    s.(buffer := s.buffer[..last],
       masters := Signal(s.masters, Asleep, Woken, wake),
       workers := s.workers[w := Ready],
       consumed := s.consumed + [s.buffer[last]])
  }

  function Do(c: Settings, s: State, a: Action): State
    requires Enabled(c, s, a)
  {
    match a
    case MasterRun(m, wake) => RunMaster(c, s, m, wake)
    case WorkerRun(w, wake) => RunWorker(c, s, w, wake)
    case SpuriousMaster(m) => s.(masters := s.masters[m := Woken])
    case SpuriousWorker(w) => s.(workers := s.workers[w := Woken])
  }

  /** The state a schedule leads to, if every one of its steps is possible. */
  function After(c: Settings, acts: seq<Action>): Option<State> {
    if acts == [] then Some(Init(c))
    else
      match After(c, acts[..|acts| - 1])
      case None => None
      case Some(s) =>
        var a := acts[|acts| - 1];
        if Enabled(c, s, a) then Some(Do(c, s, a)) else None
  }

  predicate NoSpurious(acts: seq<Action>) {
    forall a :: a in acts ==> !a.Spurious()
  }

  ghost predicate Reachable(c: Settings, s: State) {
    exists acts :: After(c, acts) == Some(s)
  }

  /** Reachable with every wakeup the effect of a signal. */
  ghost predicate ReachableBySignals(c: Settings, s: State) {
    exists acts :: NoSpurious(acts) && After(c, acts) == Some(s)
  }

  /** No thread can take a step: each has exited or sleeps with no signal on its way. */
  ghost predicate Quiescent(c: Settings, s: State) {
    forall a: Action :: !a.Spurious() ==> !Enabled(c, s, a)
  }

  lemma StepReachable(c: Settings, s: State, a: Action)
    requires ReachableBySignals(c, s) && Enabled(c, s, a) && !a.Spurious()
    ensures ReachableBySignals(c, Do(c, s, a))
  {
    var acts :| NoSpurious(acts) && After(c, acts) == Some(s);
    var more := acts + [a];
    assert more[..|more| - 1] == acts;
    assert After(c, more) == Some(Do(c, s, a));
  }

  lemma QuiescentThreads(c: Settings, s: State)
    ensures Quiescent(c, s) <==>
            (forall i :: 0 <= i < |s.masters| ==> s.masters[i] == Asleep || s.masters[i] == Exited) &&
            (forall i :: 0 <= i < |s.workers| ==> s.workers[i] == Asleep || s.workers[i] == Exited)
  {
    if i :| 0 <= i < |s.masters| && s.masters[i] != Asleep && s.masters[i] != Exited {
      var wake :| CanSignal(s.workers, Asleep, wake) by { SomeSleeper(s.workers, Asleep); }
      assert Enabled(c, s, MasterRun(i, wake));
    } else if i :| 0 <= i < |s.workers| && s.workers[i] != Asleep && s.workers[i] != Exited {
      var wake :| CanSignal(s.masters, Asleep, wake) by { SomeSleeper(s.masters, Asleep); }
      assert Enabled(c, s, WorkerRun(i, wake));
    }
  }
}
