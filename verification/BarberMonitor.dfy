/** The shop's own variables, with one method for each critical section. */
module BarberMonitor {
  import opened Conditions
  import opened Barber

  class Shop {
    const chairs: nat
    var waiting_customers: int
    // The threads' positions and the haircuts so far, for the proof only.
    ghost const settings: Settings
    ghost var barber: Position
    ghost var customers: seq<Customer>
    ghost var haircuts: nat

    ghost predicate Valid()
      reads this
    {
      settings.chairs == chairs && 0 <= waiting_customers
    }

    ghost function View(): State
      requires Valid()
      reads this
    {
      State(waiting_customers, barber, customers, haircuts)
    }

    constructor (chairs: nat, ghost number: nat)
      ensures Valid() && settings == Settings(chairs, number) && View() == Init(settings)
    {
      this.chairs := chairs;
      waiting_customers := 0;
      settings := Settings(chairs, number);
      barber := Ready;
      customers := seq(number, _ => Outside);
      haircuts := 0;
    }

    /** barber from its lock, or from a wakeup, to its wait or unlock. */
    method BarberLooks(ghost call: nat) returns (cuts: bool)
      requires Valid() && Enabled(settings, View(), BarberRuns(call))
      modifies this
      ensures Valid() && View() == Do(settings, old(View()), BarberRuns(call))
      ensures barber == if cuts then Ready else Asleep
    {
      if waiting_customers == 0 {
        barber := Asleep;
        return false;
      }
      waiting_customers := waiting_customers - 1;
      haircuts := haircuts + 1;
      barber, customers := Ready, Signal(customers, Waiting, Called, call);
      return true;
    }

    /** customer from its lock to its wait or unlock. */
    method CustomerArrives(ghost i: nat) returns (seated: bool)
      requires Valid() && Enabled(settings, View(), CustomerRuns(i)) && customers[i] == Outside
      modifies this
      ensures Valid() && View() == Do(settings, old(View()), CustomerRuns(i))
      ensures customers[i] == if seated then Waiting else TurnedAway
    {
      seated := waiting_customers < chairs;
      if seated {
        waiting_customers := waiting_customers + 1;
        barber := if barber == Asleep then Woken else barber;
        customers := customers[i := Waiting];
      } else {
        customers := customers[i := TurnedAway];
      }
    }

    /** customer from its wakeup to its unlock. */
    method CustomerServed(ghost i: nat)
      requires Valid() && Enabled(settings, View(), CustomerRuns(i)) && customers[i] == Called
      modifies this
      ensures Valid() && View() == Do(settings, old(View()), CustomerRuns(i))
    {
      customers := customers[i := Served];
    }
  }
}
