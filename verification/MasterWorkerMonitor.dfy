/** The program's own variables, with one method for each critical section. */
module MasterWorkerMonitor {
  import opened Conditions
  import opened MasterWorker

  datatype Outcome = Blocked | Released | Finished

  class Monitor {
    const total_items: nat
    const max_buf_size: nat
    var item_to_produce: nat
    var curr_buf_size: nat
    var buffer: array<nat>
    // The threads' positions and the output so far, for the proof only.
    ghost const settings: Settings
    ghost var masters: seq<Thread>
    ghost var workers: seq<Thread>
    ghost var produced: seq<nat>
    ghost var consumed: seq<nat>

    ghost predicate Valid()
      reads this, buffer
    {
      && settings.total == total_items && settings.capacity == max_buf_size == buffer.Length
      && curr_buf_size <= buffer.Length
    }

    ghost function View(): State
      requires Valid()
      reads this, buffer
    {
      State(item_to_produce, buffer[..curr_buf_size], masters, workers, produced, consumed)
    }

    constructor (total: nat, capacity: nat, num_workers: nat, num_masters: nat)
      ensures Valid() && fresh(buffer)
      ensures settings == Settings(total, capacity, num_masters, num_workers)
      ensures View() == Init(settings)
    {
      total_items, max_buf_size := total, capacity;
      item_to_produce, curr_buf_size := 0, 0;
      buffer := new nat[capacity](_ => 0);
      settings := Settings(total, capacity, num_masters, num_workers);
      masters := seq(num_masters, _ => Ready);
      workers := seq(num_workers, _ => Ready);
      produced, consumed := [], [];
    }

    /** generate_requests_loop from its lock to the next wait or unlock. */
    method MasterEnters(ghost m: nat, ghost wake: nat) returns (outcome: Outcome)
      requires Valid() && Enabled(settings, View(), MasterRun(m, wake)) && masters[m] == Ready
      modifies this, buffer
      ensures Valid() && buffer == old(buffer)
      ensures View() == Do(settings, old(View()), MasterRun(m, wake))
      ensures masters[m] == match outcome case Blocked => Asleep case Released => Ready case Finished => Exited
    {
      if item_to_produce >= total_items {
        masters := masters[m := Exited];
        return Finished;
      }
      outcome := MasterResumes(m, wake);
    }

    /** The rest of that section, from the test of its while loop; also where a woken master resumes. */
    method MasterResumes(ghost m: nat, ghost wake: nat) returns (outcome: Outcome)
      requires Valid() && Enabled(settings, View(), MasterRun(m, wake))
      requires masters[m] == Woken || item_to_produce < total_items
      modifies this, buffer
      ensures Valid() && buffer == old(buffer)
      ensures View() == Do(settings, old(View()), MasterRun(m, wake))
      ensures outcome != Finished && masters[m] == if outcome == Blocked then Asleep else Ready
    {
      if curr_buf_size >= max_buf_size {
        masters := masters[m := Asleep];
        return Blocked;
      }
      buffer[curr_buf_size] := item_to_produce;
      produced := produced + [item_to_produce];
      curr_buf_size := curr_buf_size + 1;
      item_to_produce := item_to_produce + 1;
      masters, workers := masters[m := Ready], Signal(workers, Asleep, Woken, wake);
      outcome := Released;
    }

    /** consume_request from its lock to the next wait or unlock. */
    method WorkerEnters(ghost w: nat, ghost wake: nat) returns (outcome: Outcome)
      requires Valid() && Enabled(settings, View(), WorkerRun(w, wake)) && workers[w] == Ready
      modifies this
      ensures Valid() && buffer == old(buffer)
      ensures View() == Do(settings, old(View()), WorkerRun(w, wake))
      ensures workers[w] == match outcome case Blocked => Asleep case Released => Ready case Finished => Exited
    {
      if curr_buf_size == 0 && item_to_produce >= total_items {
        workers := workers[w := Exited];
        return Finished;
      }
      outcome := WorkerResumes(w, wake);
    }

    /** The rest of that section; a woken worker that finds production over takes nothing and unlocks. */
    method WorkerResumes(ghost w: nat, ghost wake: nat) returns (outcome: Outcome)
      requires Valid() && Enabled(settings, View(), WorkerRun(w, wake))
      requires workers[w] == Woken || curr_buf_size > 0 || item_to_produce < total_items
      modifies this
      ensures Valid() && buffer == old(buffer)
      ensures View() == Do(settings, old(View()), WorkerRun(w, wake))
      ensures outcome != Finished && workers[w] == if outcome == Blocked then Asleep else Ready
    {
      if curr_buf_size == 0 && item_to_produce < total_items {
        workers := workers[w := Asleep];
        return Blocked;
      }
      if curr_buf_size > 0 {
        curr_buf_size := curr_buf_size - 1;
        var item := buffer[curr_buf_size];
        consumed := consumed + [item];
        masters := Signal(masters, Asleep, Woken, wake);
      }
      workers := workers[w := Ready];
      outcome := Released;
    }
  }
}
