/** The zemaphore, and the ring of them that the printing threads share. */
module TokenRingMonitor {
  import opened TokenRing

  class Zemaphore {
    var count: int
    // The threads in the wait of zem_down, for the proof only.
    ghost var sleeping: set<nat>
    ghost var woken: set<nat>

    constructor (value: int)
      ensures count == value && sleeping == {} && woken == {}
    {
      count := value;
      sleeping, woken := {}, {};
    }

    /** zem_down from its lock to its wait or unlock. */
    method Down(ghost t: nat) returns (blocked: bool)
      modifies this
      ensures blocked == (old(count) <= 0) && woken == old(woken)
      ensures count == if blocked then old(count) else old(count) - 1
      ensures sleeping == if blocked then old(sleeping) + {t} else old(sleeping)
    {
      if count <= 0 {
        sleeping := sleeping + {t};
        return true;
      }
      count := count - 1;
      return false;
    }

    /** zem_down from its wakeup to its unlock: the count is not tested again. */
    method Resume(ghost t: nat)
      requires t in woken
      modifies this
      ensures count == old(count) - 1 && sleeping == old(sleeping) && woken == old(woken) - {t}
    {
      woken := woken - {t};
      count := count - 1;
    }

    method Up(ghost wake: nat)
      requires sleeping != {} ==> wake in sleeping
      modifies this
      ensures count == old(count) + 1 && sleeping == old(sleeping) - {wake}
      ensures woken == if wake in old(sleeping) then old(woken) + {wake} else old(woken)
    {
      count := count + 1;
      if wake in sleeping {
        sleeping, woken := sleeping - {wake}, woken + {wake};
      }
    }
  }

  /** One zemaphore of count 0 for each thread. */
  method Zeroes(threads: nat) returns (made: seq<Zemaphore>)
    ensures |made| == threads && fresh(made)
    ensures forall i, j :: 0 <= i < j < |made| ==> made[i] != made[j]
    ensures forall i :: 0 <= i < |made| ==> made[i].count == 0 && made[i].sleeping == {} && made[i].woken == {}
  {
    made := [];
    while |made| < threads
      invariant |made| <= threads && fresh(made)
      invariant forall i, j :: 0 <= i < j < |made| ==> made[i] != made[j]
      invariant forall i :: 0 <= i < |made| ==> made[i].count == 0 && made[i].sleeping == {} && made[i].woken == {}
    {
      var z := new Zemaphore(0);
      made := made + [z];
    }
  }

  class Ring {
    const zem: seq<Zemaphore>
    ghost const settings: Settings
    ghost var ts: seq<Thread>
    ghost var prints: seq<nat>

    ghost function Where(t: nat, phase: Phase): set<nat>
      requires t < |ts|
      reads this
    {
      if ts[t].phase == phase then {t} else {}
    }

    ghost predicate Valid()
      reads this, zem
    {
      && |zem| == |ts| == settings.threads && 0 < settings.threads
      && (forall i, j :: 0 <= i < j < |zem| ==> zem[i] != zem[j])
      && (forall t :: 0 <= t < |zem| ==> zem[t].sleeping == Where(t, Asleep) && zem[t].woken == Where(t, Woken))
    }

    ghost function Counts(): seq<int>
      reads zem
    {
      seq(|zem|, t requires 0 <= t < |zem| reads zem => zem[t].count)
    }

    ghost function View(): State
      reads this, zem
    {
      State(Counts(), ts, prints)
    }

    /** main, up to the creation of the threads. */
    constructor (threads: nat, ghost rounds: nat)
      requires 0 < threads
      ensures Valid() && fresh(zem) && settings == Settings(threads, rounds)
      ensures View() == Init(settings)
    {
      var made := Zeroes(threads);
      made[0].Up(0);
      zem := made;
      settings := Settings(threads, rounds);
      ts := Init(Settings(threads, rounds)).ts;
      prints := [];
    }

    method Down(t: nat) returns (blocked: bool)
      requires Valid() && Enabled(settings, View(), Action.Down(t)) && ts[t].phase == Calling
      modifies this, zem
      ensures Valid() && View() == Do(settings, old(View()), Action.Down(t))
      ensures ts[t].phase == if blocked then Asleep else Holding
    {
      blocked := zem[t].Down(t);
      ts := ts[t := ts[t].(phase := if blocked then Asleep else Holding)];
    }

    method Resume(t: nat)
      requires Valid() && Enabled(settings, View(), Action.Down(t)) && ts[t].phase == Woken
      modifies this, zem
      ensures Valid() && View() == Do(settings, old(View()), Action.Down(t))
    {
      zem[t].Resume(t);
      ts := ts[t := ts[t].(phase := Holding)];
    }

    /** One more permit for a thread, which no longer sleeps. */
    method Post(n: nat)
      requires Valid() && n < |ts|
      modifies this`ts, zem[n]
      ensures Valid() && ts == Wake(old(ts), n)
      ensures Counts() == old(Counts()[n := Counts()[n] + 1])
    {
      zem[n].Up(n);
      ts := Wake(ts, n);
    }

    method Up(t: nat)
      requires Valid() && Enabled(settings, View(), Action.Up(t))
      modifies this, zem
      ensures Valid() && View() == Do(settings, old(View()), Action.Up(t))
    {
      var next_thread := (t + 1) % |zem|;
      assert next_thread == NextThread(t, |ts|);
      Post(next_thread);
      ts := ts[t := Begin(settings, ts[t].round + 1)];
    }
  }
}
