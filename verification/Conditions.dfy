/**
  Condition variables.  Threads that wait on one are asleep; a signal makes one of them,
  any of them, woken, and a broadcast all.  A woken thread has yet to get its mutex back.
 */
module Conditions {

  /** The choice of a sleeper to signal, if there is any. */
  predicate CanSignal<T(==)>(threads: seq<T>, asleep: T, wake: nat) {
    asleep in threads ==> wake < |threads| && threads[wake] == asleep
  }

  function Signal<T(==)>(threads: seq<T>, asleep: T, woken: T, wake: nat): seq<T> {
    if wake < |threads| && threads[wake] == asleep then threads[wake := woken] else threads
  }

  function Broadcast<T(==)>(threads: seq<T>, asleep: T, woken: T): (after: seq<T>)
    ensures |after| == |threads|
    ensures forall i :: 0 <= i < |threads| ==> after[i] == if threads[i] == asleep then woken else threads[i]
  {
    if threads == [] then []
    else [if threads[0] == asleep then woken else threads[0]] + Broadcast(threads[1..], asleep, woken)
  }

  lemma SomeSleeper<T>(threads: seq<T>, asleep: T)
    ensures exists wake: nat :: CanSignal(threads, asleep, wake)
  {
    if asleep in threads {
      var i :| 0 <= i < |threads| && threads[i] == asleep;
      assert CanSignal(threads, asleep, i);
    } else {
      assert CanSignal(threads, asleep, 0);
    }
  }
}
