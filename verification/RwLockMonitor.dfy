/** The lock's own fields, with one method for each critical section of its four operations. */
module RwLockMonitor {
  import opened Conditions
  import opened RwLock

  class ReadWriteLock {
    const preference: Preference
    var readers: int
    var writers_waiting: int
    var writer_active: int
    // The threads' positions and the two logs, for the proof only.
    ghost const settings: Settings
    ghost var rs: seq<Thread>
    ghost var ws: seq<Thread>
    ghost var log: seq<Note>
    ghost var order: seq<Event>

    ghost predicate Valid()
      reads this
    {
      settings.preference == preference
    }

    ghost function View(): State
      reads this
    {
      State(readers, writers_waiting, writer_active, rs, ws, log, order)
    }

    constructor (preference: Preference, ghost settings: Settings)
      requires settings.preference == preference
      ensures Valid() && this.settings == settings && View() == Init(settings)
    {
      this.preference := preference;
      this.settings := settings;
      readers, writers_waiting, writer_active := 0, 0, 0;
      rs := seq(settings.readers, _ => Outside);
      ws := seq(settings.writers, _ => Outside);
      log, order := [], [];
    }

    /** ReaderLock from its lock, or from a wakeup, to its wait or unlock. */
    method ReaderTriesLock(ghost r: nat) returns (acquired: bool)
      requires Valid() && Enabled(settings, View(), ReaderLock(r))
      modifies this
      ensures Valid() && View() == Do(settings, old(View()), ReaderLock(r))
      ensures rs[r] == if acquired then Entered else Asleep
    {
      if writer_active != 0 || (preference == ForWriters && writers_waiting > 0) {
        rs := rs[r := Asleep];
        return false;
      }
      readers := readers + 1;
      rs := rs[r := Entered];
      order := order + [Admitted(r)];
      return true;
    }

    method ReaderUnlocks(ghost r: nat, ghost wake: nat)
      requires Valid() && Enabled(settings, View(), ReaderUnlock(r, wake))
      modifies this
      ensures Valid() && View() == Do(settings, old(View()), ReaderUnlock(r, wake))
    {
      readers := readers - 1;
      rs := rs[r := Finished];
      if readers == 0 {
        ws := Signal(ws, Asleep, Woken, wake);
      }
    }

    /** WriterLock from its lock to its first wait or unlock. */
    method WriterArrives(ghost w: nat) returns (acquired: bool)
      requires Valid() && Enabled(settings, View(), WriterLock(w)) && ws[w] == Outside
      modifies this
      ensures Valid() && View() == Do(settings, old(View()), WriterLock(w))
      ensures ws[w] == if acquired then Entered else Asleep
    {
      writers_waiting := writers_waiting + 1;
      order := order + [Registered(w)];
      acquired := WriterTests(w);
    }

    /** The test of WriterLock's loop, on arrival and after each wakeup. */
    method WriterTests(ghost w: nat) returns (acquired: bool)
      requires Valid() && w < |ws|
      modifies this
      ensures Valid() && acquired == !old(WriterMustWait(View()))
      ensures View() == if acquired then
          old(View()).(writers_waiting := old(writers_waiting) - 1, writer_active := 1, ws := old(ws)[w := Entered])
        else old(View()).(ws := old(ws)[w := Asleep])
    {
      if writer_active != 0 || readers > 0 {
        ws := ws[w := Asleep];
        return false;
      }
      writers_waiting := writers_waiting - 1;
      writer_active := 1;
      ws := ws[w := Entered];
      return true;
    }

    /** WriterLock from a wakeup to its next wait or unlock. */
    method WriterResumes(ghost w: nat) returns (acquired: bool)
      requires Valid() && Enabled(settings, View(), WriterLock(w)) && ws[w] == Woken
      modifies this
      ensures Valid() && View() == Do(settings, old(View()), WriterLock(w))
      ensures ws[w] == if acquired then Entered else Asleep
    {
      acquired := WriterTests(w);
    }

    method WriterUnlocks(ghost w: nat, ghost wake: nat)
      requires Valid() && Enabled(settings, View(), WriterUnlock(w, wake))
      modifies this
      ensures Valid() && View() == Do(settings, old(View()), WriterUnlock(w, wake))
    {
      writer_active := 0;
      order := order + [Unlocked(w)];
      ws := ws[w := Finished];
      if preference == ForReaders {
        rs := Broadcast(rs, Asleep, Woken);
        if readers == 0 {
          ws := Signal(ws, Asleep, Woken, wake);
        }
      } else if writers_waiting > 0 {
        ws := Signal(ws, Asleep, Woken, wake);
      } else {
        rs := Broadcast(rs, Asleep, Woken);
      }
    }
  }
}
