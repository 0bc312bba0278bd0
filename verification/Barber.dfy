/**
  The sleeping barber.  A customer waits once, with no loop around its wait; the barber
  waits in a loop.  One atomic step is the code from taking the mutex, or getting it back
  from a wait, to the next wait or unlock.
 */
module Barber {
  import opened Conditions
  import opened Tallies

  datatype Settings = Settings(chairs: nat, customers: nat)

  /** Where the barber is: about to look for customers, or in its wait, before and after being signalled. */
  datatype Position = Ready | Asleep | Woken

  /** Outside: has not come in yet.  Waiting, Called: in its wait, before and after being
      signalled.  Served, TurnedAway: gone. */
  datatype Customer = Outside | Waiting | Called | Served | TurnedAway

  datatype State = State(waiting_customers: nat, barber: Position, customers: seq<Customer>, haircuts: nat)

  /** call names the waiting customer that the barber's signal picks. */
  datatype Action = BarberRuns(call: nat) | CustomerRuns(i: nat) | SpuriousBarber | SpuriousCustomer(i: nat)
  {
    predicate Spurious() {
      SpuriousBarber? || SpuriousCustomer?
    }
  }

  function Init(c: Settings): State {
    State(0, Ready, seq(c.customers, _ => Outside), 0)
  }

  predicate Enabled(c: Settings, s: State, a: Action) {
    match a
    case BarberRuns(call) => s.barber != Asleep && CanSignal(s.customers, Waiting, call)
    case CustomerRuns(i) => i < |s.customers| && s.customers[i] in {Outside, Called}
    case SpuriousBarber => s.barber == Asleep
    case SpuriousCustomer(i) => i < |s.customers| && s.customers[i] == Waiting
  }

  function RunBarber(s: State, call: nat): State {
    if s.waiting_customers == 0 then s.(barber := Asleep)
    else State(s.waiting_customers - 1, Ready, Signal(s.customers, Waiting, Called, call), s.haircuts + 1)
  }

  function RunCustomer(c: Settings, s: State, i: nat): State
    requires i < |s.customers|
  {
    if s.customers[i] == Called then
      s.(customers := s.customers[i := Served])
    else if s.waiting_customers < c.chairs then
      s.(waiting_customers := s.waiting_customers + 1,
         barber := if s.barber == Asleep then Woken else s.barber,
         customers := s.customers[i := Waiting])
    else
      s.(customers := s.customers[i := TurnedAway])
  }

  function Do(c: Settings, s: State, a: Action): State
    requires Enabled(c, s, a)
  {
    match a
    case BarberRuns(call) => RunBarber(s, call)
    case CustomerRuns(i) => RunCustomer(c, s, i)
    case SpuriousBarber => s.(barber := Woken)
    case SpuriousCustomer(i) => s.(customers := s.customers[i := Called])
  }

  /** The state a schedule leads to, if every one of its steps is possible. */
  function After(c: Settings, acts: seq<Action>): Option<State> {
    if acts == [] then Some(Init(c))
    else
      match After(c, acts[..|acts| - 1])
      case None => None
      case Some(s) =>
        var a := acts[|acts| - 1];
        if Enabled(c, s, a) then Some(Do(c, s, a)) else None
  }

  /** The barber's loop tolerates spurious wakeups; the customer's single wait does not. */
  predicate CustomersUndisturbed(acts: seq<Action>) {
    forall a :: a in acts ==> !a.SpuriousCustomer?
  }

  predicate NoSpurious(acts: seq<Action>) {
    forall a :: a in acts ==> !a.Spurious()
  }

  ghost predicate Quiescent(c: Settings, s: State) {
    forall a: Action :: !a.Spurious() ==> !Enabled(c, s, a)
  }

  function Attended(customer: Customer): nat {
    if customer in {Called, Served} then 1 else 0
  }

  function Seated(customer: Customer): nat {
    if customer in {Waiting, Called, Served} then 1 else 0
  }

  /** Whatever is woken spuriously: waiting_customers is at most chairs and at least the customers
      asleep and not called; each customer that took a chair has had its haircut or is counted as
      waiting; the barber sleeps only when nobody is; and nobody is turned away before the chairs
      were all taken. */
  ghost predicate Books(c: Settings, s: State) {
    && |s.customers| == c.customers
    && Count(s.customers, Waiting) <= s.waiting_customers <= c.chairs
    && s.waiting_customers + s.haircuts == Tally(s.customers, Seated)
    && (s.barber == Asleep ==> s.waiting_customers == 0)
    && (TurnedAway in s.customers ==> c.chairs <= s.haircuts + s.waiting_customers)
  }

  /** waiting_customers counts exactly the customers asleep and not yet called, and each haircut
      called exactly one customer. */
  ghost predicate Exact(s: State) {
    s.waiting_customers == Count(s.customers, Waiting) && s.haircuts == Tally(s.customers, Attended)
  }

  ghost predicate Inv(c: Settings, s: State) {
    Books(c, s) && Exact(s)
  }

  lemma StepKeepsBooks(c: Settings, s: State, a: Action)
    requires Books(c, s) && Enabled(c, s, a)
    ensures Books(c, Do(c, s, a))
  {
    CountZero(s.customers, Waiting);
    if a.BarberRuns? && Waiting in s.customers {
      CountSet(s.customers, a.call, Called, Waiting);
      TallySet(s.customers, a.call, Called, Seated);
    } else if a.CustomerRuns? || a.SpuriousCustomer? {
      CountSet(s.customers, a.i, Do(c, s, a).customers[a.i], Waiting);
      TallySet(s.customers, a.i, Do(c, s, a).customers[a.i], Seated);
    }
  }

  lemma {:induction false} BooksHold(c: Settings, acts: seq<Action>, s: State)
    requires After(c, acts) == Some(s)
    ensures Books(c, s)
    decreases |acts|
  {
    if acts == [] {
      TallyZero(s.customers, Seated);
      CountZero(s.customers, Waiting);
    } else {
      var before := After(c, acts[..|acts| - 1]).value;
      BooksHold(c, acts[..|acts| - 1], before);
      StepKeepsBooks(c, before, acts[|acts| - 1]);
    }
  }

  lemma StepKeepsExact(c: Settings, s: State, a: Action)
    requires Inv(c, s) && Enabled(c, s, a) && !a.SpuriousCustomer?
    ensures Exact(Do(c, s, a))
    ensures a.BarberRuns? && 0 < s.waiting_customers ==>
              a.call < |s.customers| && s.customers[a.call] == Waiting && Do(c, s, a).customers[a.call] == Called
  {
    if a.BarberRuns? && 0 < s.waiting_customers {
      CountZero(s.customers, Waiting);
      CountSet(s.customers, a.call, Called, Waiting);
      TallySet(s.customers, a.call, Called, Attended);
    } else if a.CustomerRuns? {
      CountSet(s.customers, a.i, Do(c, s, a).customers[a.i], Waiting);
      TallySet(s.customers, a.i, Do(c, s, a).customers[a.i], Attended);
    }
  }

  lemma {:induction false} Safety(c: Settings, acts: seq<Action>, s: State)
    requires CustomersUndisturbed(acts) && After(c, acts) == Some(s)
    ensures Inv(c, s)
    decreases |acts|
  {
    BooksHold(c, acts, s);
    if acts == [] {
      TallyZero(s.customers, Attended);
      CountZero(s.customers, Waiting);
    } else {
      var front := acts[..|acts| - 1];
      var before := After(c, front).value;
      Safety(c, front, before);
      assert acts[|acts| - 1] in acts;
      StepKeepsExact(c, before, acts[|acts| - 1]);
    }
  }

  /** No call is lost: each time the barber cuts, one waiting customer is called. */
  lemma NoCallLost(c: Settings, acts: seq<Action>, s: State, call: nat)
    requires CustomersUndisturbed(acts) && After(c, acts) == Some(s) && Enabled(c, s, BarberRuns(call))
    requires 0 < s.waiting_customers
    ensures call < |s.customers| && s.customers[call] == Waiting
    ensures RunBarber(s, call).customers == s.customers[call := Called]
  {
    Safety(c, acts, s);
    StepKeepsExact(c, s, BarberRuns(call));
  }

  /** Where a run ends, spurious wakeups or not, the barber sleeps, every customer has gone, and the
      haircuts are exactly as many as the customers that took a chair: at least as many as there
      are chairs, if so many customers came. */
  lemma QuiescentMeansServed(c: Settings, acts: seq<Action>, s: State)
    requires After(c, acts) == Some(s) && Quiescent(c, s)
    ensures s.barber == Asleep && s.waiting_customers == 0
    ensures |s.customers| == c.customers && forall i :: 0 <= i < c.customers ==> s.customers[i] in {Served, TurnedAway}
    ensures s.haircuts == Count(s.customers, Served)
    ensures c.chairs <= s.haircuts || s.haircuts == c.customers
  {
    BooksHold(c, acts, s);
    BarberCanCall(c, s);
    CountZero(s.customers, Waiting);
    forall i | 0 <= i < c.customers
      ensures s.customers[i] in {Served, TurnedAway}
    {
      assert !Enabled(c, s, CustomerRuns(i));
      assert s.customers[i] != Outside && s.customers[i] != Called;
      assert s.customers[i] in s.customers;
    }
    TallyMonotone(s.customers, s.customers, Seated, Is(Served));
    TallyMonotone(s.customers, s.customers, Is(Served), Seated);
    if TurnedAway !in s.customers {
      assert forall customer :: customer in s.customers ==> customer == Served;
      AllCount(s.customers, Served);
    }
  }

  lemma {:induction false} AllCount(customers: seq<Customer>, same: Customer)
    requires forall customer :: customer in customers ==> customer == same
    ensures Count(customers, same) == |customers|
  {
    if customers != [] {
      assert customers[0] in customers && forall customer :: customer in customers[1..] ==> customer in customers;
      AllCount(customers[1..], same);
    }
  }

  lemma BarberCanCall(c: Settings, s: State)
    requires Quiescent(c, s)
    ensures s.barber == Asleep
  {
    if Waiting in s.customers {
      var i :| 0 <= i < |s.customers| && s.customers[i] == Waiting;
      assert !Enabled(c, s, BarberRuns(i));
    } else {
      assert !Enabled(c, s, BarberRuns(0));
    }
  }

  // ---- what each critical section does, in any run

  /** A customer that comes in is turned away if and only if all chairs are counted as taken: while
      customers are not woken spuriously, if and only if so many customers wait. */
  lemma ArrivalOutcome(c: Settings, acts: seq<Action>, s: State, i: nat)
    requires After(c, acts) == Some(s) && i < |s.customers| && s.customers[i] == Outside
    ensures Enabled(c, s, CustomerRuns(i))
    ensures Do(c, s, CustomerRuns(i)) ==
            if s.waiting_customers == c.chairs then s.(customers := s.customers[i := TurnedAway])
            else s.(customers := s.customers[i := Waiting], waiting_customers := s.waiting_customers + 1,
                    barber := if s.barber == Asleep then Woken else s.barber)
    ensures CustomersUndisturbed(acts) ==>
              (Do(c, s, CustomerRuns(i)).customers[i] == TurnedAway <==> Count(s.customers, Waiting) == c.chairs)
  {
    BooksHold(c, acts, s);
    if CustomersUndisturbed(acts) {
      Safety(c, acts, s);
    }
  }

  /** The barber that looks for customers sleeps if and only if none is counted as waiting: while
      customers are not woken spuriously, if and only if none waits. Else one that waits is called. */
  lemma BarberOutcome(c: Settings, acts: seq<Action>, s: State, call: nat)
    requires After(c, acts) == Some(s) && (s.barber == Ready || s.barber == Woken)
    requires Waiting in s.customers ==> call < |s.customers| && s.customers[call] == Waiting
    ensures Enabled(c, s, BarberRuns(call))
    ensures s.waiting_customers == 0 ==> Do(c, s, BarberRuns(call)) == s.(barber := Asleep)
    ensures 0 < s.waiting_customers ==>
              Do(c, s, BarberRuns(call)) ==
              State(s.waiting_customers - 1, Ready,
                    if Waiting in s.customers then s.customers[call := Called] else s.customers, s.haircuts + 1)
    ensures CustomersUndisturbed(acts) ==>
              (Do(c, s, BarberRuns(call)).barber == Asleep <==> Waiting !in s.customers)
  {
    CountZero(s.customers, Waiting);
    if CustomersUndisturbed(acts) {
      Safety(c, acts, s);
    }
    if Waiting !in s.customers {
      assert Signal(s.customers, Waiting, Called, call) == s.customers;
    }
  }

  /** A customer that was called, or woken spuriously, leaves, and nothing else changes. */
  lemma LeavingOutcome(c: Settings, s: State, i: nat)
    requires i < |s.customers| && s.customers[i] == Called
    ensures Enabled(c, s, CustomerRuns(i))
    ensures Do(c, s, CustomerRuns(i)) == s.(customers := s.customers[i := Served])
  {
  }

  // ---- termination

  function CustomerLeft(customer: Customer): nat {
    match customer
    case Outside => 4
    case Waiting => 2
    case Called => 1
    case _ => 0
  }

  function Left(s: State): nat {
    Tally(s.customers, CustomerLeft) + if s.barber == Asleep then 0 else 1
  }

  lemma StepLeavesLess(c: Settings, s: State, a: Action)
    requires Inv(c, s) && Enabled(c, s, a) && !a.Spurious()
    ensures Left(Do(c, s, a)) < Left(s)
  {
    var t := Do(c, s, a);
    if a.CustomerRuns? {
      TallySet(s.customers, a.i, t.customers[a.i], CustomerLeft);
    } else if 0 < s.waiting_customers {
      CountZero(s.customers, Waiting);
      TallySet(s.customers, a.call, Called, CustomerLeft);
    }
  }

  lemma {:induction false} EveryRunIsFinite(c: Settings, acts: seq<Action>, s: State)
    requires NoSpurious(acts) && After(c, acts) == Some(s)
    ensures |acts| + Left(s) <= 4 * c.customers + 1
    decreases |acts|
  {
    if acts == [] {
      TallyAtMost(s.customers, CustomerLeft, 4);
    } else {
      var front := acts[..|acts| - 1];
      var before := After(c, front).value;
      EveryRunIsFinite(c, front, before);
      Safety(c, front, before);
      assert acts[|acts| - 1] in acts;
      StepLeavesLess(c, before, acts[|acts| - 1]);
    }
  }

  // ---- what spurious wakeups of customers do

  ghost predicate AlwaysExact(c: Settings, acts: seq<Action>) {
    && (acts != [] ==> AlwaysExact(c, acts[..|acts| - 1]))
    && match After(c, acts) case Some(s) => Exact(s) case None => true
  }

  lemma SpuriousBreaksExact(c: Settings, s: State, i: nat)
    requires Exact(s) && Enabled(c, s, SpuriousCustomer(i))
    ensures !Exact(Do(c, s, SpuriousCustomer(i)))
  {
    CountSet(s.customers, i, Called, Waiting);
  }

  /** The counters are exact throughout a run if and only if it wakes no customer spuriously. */
  lemma {:induction false} ExactIff(c: Settings, acts: seq<Action>, s: State)
    requires After(c, acts) == Some(s)
    ensures AlwaysExact(c, acts) <==> CustomersUndisturbed(acts)
    decreases |acts|
  {
    if acts != [] {
      var front, a := acts[..|acts| - 1], acts[|acts| - 1];
      var before := After(c, front).value;
      ExactIff(c, front, before);
      assert forall b :: b in acts <==> b in front || b == a;
      if a.SpuriousCustomer? && Exact(before) {
        SpuriousBreaksExact(c, before, a.i);
      }
      if AlwaysExact(c, front) {
        assert Exact(before);
      }
    }
    if CustomersUndisturbed(acts) {
      Safety(c, acts, s);
    }
  }

  lemma {:induction false} NobodyWaits(c: Settings, acts: seq<Action>, s: State)
    requires c.chairs == 0 || c.customers == 0
    requires After(c, acts) == Some(s)
    ensures CustomersUndisturbed(acts)
    decreases |acts|
  {
    if acts != [] {
      var front, a := acts[..|acts| - 1], acts[|acts| - 1];
      var before := After(c, front).value;
      NobodyWaits(c, front, before);
      BooksHold(c, front, before);
      CountZero(before.customers, Waiting);
      assert forall b :: b in acts ==> b in front || b == a;
      assert Waiting !in before.customers;
    }
  }

  /** The counters are exact in every run for exactly these settings, under which nobody waits. */
  lemma EveryRunExactIff(c: Settings)
    ensures c.chairs == 0 || c.customers == 0 <==> forall acts, s :: After(c, acts) == Some(s) ==> Exact(s)
  {
    if c.chairs == 0 || c.customers == 0 {
      forall acts, s | After(c, acts) == Some(s)
        ensures Exact(s)
      {
        NobodyWaits(c, acts, s);
        Safety(c, acts, s);
      }
    } else {
      var acts, s := SpuriousWakeupLosesHaircut(c);
      CountZero(s.customers, Waiting);
      assert !Exact(s);
    }
  }

  /** One spurious wakeup of a customer sends it off unshorn, with a chair still counted as taken by nobody. */
  lemma SpuriousWakeupLosesHaircut(c: Settings) returns (acts: seq<Action>, s: State)
    requires 1 <= c.chairs && 1 <= c.customers
    ensures acts == [CustomerRuns(0), SpuriousCustomer(0), CustomerRuns(0)]
    ensures After(c, acts) == Some(s) && s.haircuts == 0 && s.waiting_customers == 1
    ensures |s.customers| == c.customers && s.customers[0] == Served && Waiting !in s.customers
  {
    var s1 := Do(c, Init(c), CustomerRuns(0));
    var s2 := Do(c, s1, SpuriousCustomer(0));
    s := Do(c, s2, CustomerRuns(0));
    var a1, a2 := [CustomerRuns(0)], [CustomerRuns(0), SpuriousCustomer(0)];
    acts := a2 + [CustomerRuns(0)];
    assert a1[..0] == [] && a2[..1] == a1 && acts[..2] == a2;
    assert After(c, []) == Some(Init(c)) && After(c, a1) == Some(s1) && After(c, a2) == Some(s2);
  }
}
