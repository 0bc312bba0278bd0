/** What a scan does on its own, and that a failed one costs its own iteration and no other. */
module SlotRecovery {
  import opened Tallies
  import opened SlotProtocol
  import opened SlotSafety
  import opened SlotTermination
  import opened SlotDelivery

  /** What each step of the producer does to its iteration: sending ends it, and so does a scan past
      the last slot, without a message; the next one then starts from the first slot. */
  lemma IterationEnds(c: Settings, s: State, k: nat)
    requires Suitable(c) && Inv(c, s) && Enabled(c, s, ProducerStep(k))
    ensures var t, n := Produce(c, s, k), Current(c, s);
            if s.producer.Sending? then
              0 < n && t.sent == s.sent + [n - 1] && Current(c, t) == n - 1 && t.producer == Iterate(n - 1)
            else if s.producer.Scanning? && s.producer.i == c.slots then
              0 < n && t.sent == s.sent && Current(c, t) == n - 1 && t.producer == Iterate(n - 1)
            else t.sent == s.sent && Current(c, t) == n
  {
  }

  /** The only byte a step changes is the one it writes, of the marker or of the message. */
  lemma ByteWritten(c: Settings, s: State, a: Action)
    requires Suitable(c) && Inv(c, s) && Enabled(c, s, a)
    ensures var t := Do(c, s, a);
            match a
            case ProducerStep(k) =>
              (match s.producer
               case Marking(i, _) => t.slots == s.slots[i := s.slots[i][k := c.mark[k]]]
               case Writing(itr, i, _) => t.slots == s.slots[i := s.slots[i][k := c.texts[itr][k]]]
               case _ => t.slots == s.slots)
            case ConsumerStep(k) =>
              match s.consumer
              case Freeing(i, _) => t.slots == s.slots[i := s.slots[i][k := c.mark[k]]]
              case _ => t.slots == s.slots
  {
  }

  /** The FIFO's first offset is the slot read next, and what was read up to the NUL is printed. */
  lemma ConsumerOutcome(c: Settings, s: State, k: nat)
    requires Suitable(c) && Inv(c, s) && Enabled(c, s, ConsumerStep(k))
    ensures var t := Consume(c, s, k);
            match s.consumer
            case Waiting =>
              s.fifo != [] && t.consumer == Reading(s.fifo[0], 0, "") && [s.fifo[0]] + t.fifo == s.fifo &&
              t.received == s.received
            case Reading(i, j, got) =>
              && t.fifo == s.fifo
              && (if s.slots[i][j] == '\0' then t.received == s.received + [got] && t.consumer.Freeing?
                  else t.received == s.received && t.consumer == Reading(i, j + 1, got + [s.slots[i][j]]))
            case Freeing(i, left) =>
              && t.fifo == s.fifo && t.received == s.received
              && t.consumer == if left == {k} then Waiting else Freeing(i, left - {k})
  {
  }

  /** The state that the steps lead to from s, if every one of them is possible. */
  function Play(c: Settings, s: State, steps: seq<Action>): Option<State>
    decreases |steps|
  {
    if steps == [] then Some(s)
    else if Enabled(c, s, steps[0]) then Play(c, Do(c, s, steps[0]), steps[1..])
    else None
  }

  lemma {:induction false} PlayRuns(c: Settings, acts: seq<Action>, s: State, steps: seq<Action>, t: State)
    requires Run(c, acts, s) && Play(c, s, steps) == Some(t)
    ensures Run(c, acts + steps, t)
    decreases |steps|
  {
    if steps == [] {
      assert acts + steps == acts;
    } else {
      var more := Extend(c, acts, s, steps[0]);
      MoveFirst(acts, steps);
      PlayRuns(c, more, Do(c, s, steps[0]), steps[1..], t);
    }
  }

  lemma MoveFirst(acts: seq<Action>, steps: seq<Action>)
    requires steps != []
    ensures acts + [steps[0]] + steps[1..] == acts + steps
  {
  }

  lemma {:induction false} PlayOn(c: Settings, s: State, steps: seq<Action>, t: State, rest: seq<Action>)
    requires Play(c, s, steps) == Some(t)
    ensures Play(c, s, steps + rest) == Play(c, t, rest)
    decreases |steps|
  {
    if steps == [] {
      assert steps + rest == rest;
    } else {
      assert (steps + rest)[1..] == steps[1..] + rest;
      PlayOn(c, Do(c, s, steps[0]), steps[1..], t, rest);
    }
  }

  lemma PlayFirst(c: Settings, s: State, a: Action, rest: seq<Action>)
    requires Enabled(c, s, a)
    ensures Play(c, s, [a] + rest) == Play(c, Do(c, s, a), rest)
  {
    assert ([a] + rest)[1..] == rest;
  }

  // ---- a scan that the consumer does not interrupt

  predicate OnlyProducer(steps: seq<Action>) {
    forall a :: a in steps ==> a.ProducerStep?
  }

  ghost predicate Scans(c: Settings, s: State, itr: nat, i: nat, k: nat) {
    && Shape(c, s) && Terminated(c.mark) && itr < |c.texts|
    && s.producer == Scanning(itr, i, k) && k < |c.mark|
    && (i < c.slots ==> forall j :: 0 <= j < k ==> s.slots[i][j] == c.mark[j])
  }

  /** Bytes that match lead to the next byte or to the slot, a byte that does not to the next slot. */
  lemma ScanStep(c: Settings, s: State, itr: nat, i: nat, k: nat)
    requires Scans(c, s, itr, i, k) && i < c.slots
    ensures Enabled(c, s, ProducerStep(0))
    ensures Produce(c, s, 0) == s.(producer := Produce(c, s, 0).producer)
    ensures Holds(s.slots[i], c.mark) ==>
              Produce(c, s, 0).producer ==
              if k == |c.mark| - 1 then Writing(itr, i, Below(|c.texts[itr]|)) else Scanning(itr, i, k + 1)
    ensures !Holds(s.slots[i], c.mark) ==>
              Produce(c, s, 0).producer == Scanning(itr, i + 1, 0) ||
              (k + 1 < |c.mark| && Produce(c, s, 0).producer == Scanning(itr, i, k + 1))
    ensures Produce(c, s, 0).producer == Scanning(itr, i, k + 1) ==> Scans(c, Produce(c, s, 0), itr, i, k + 1)
  {
  }

  /** It takes the first slot that holds the marker, and is given up only if none does. */
  lemma {:induction false} ScanAlone(c: Settings, s: State, itr: nat, i: nat, k: nat, first: nat)
      returns (steps: seq<Action>)
    requires Scans(c, s, itr, i, k) && i <= first <= c.slots
    requires forall j :: i <= j < first ==> !Holds(s.slots[j], c.mark)
    requires first < c.slots ==> Holds(s.slots[first], c.mark)
    ensures OnlyProducer(steps)
    ensures Play(c, s, steps) ==
            Some(s.(producer := if first < c.slots then Writing(itr, first, Below(|c.texts[itr]|)) else Iterate(itr)))
    decreases c.slots - i, |c.mark| - k
  {
    var next := Produce(c, s, 0);
    if i == c.slots {
      steps := [];
    } else {
      ScanStep(c, s, itr, i, k);
      if next.producer == Scanning(itr, i, k + 1) {
        steps := ScanAlone(c, next, itr, i, k + 1, first);
      } else if next.producer == Scanning(itr, i + 1, 0) {
        steps := ScanAlone(c, next, itr, i + 1, 0, first);
      } else {
        steps := [];
      }
    }
    PlayFirst(c, s, ProducerStep(0), steps);
    steps := [ProducerStep(0)] + steps;
  }

  // ---- later iterations

  lemma {:induction false} PlayKeepsInv(c: Settings, s: State, steps: seq<Action>, t: State)
    requires Suitable(c) && Inv(c, s) && Play(c, s, steps) == Some(t)
    ensures Inv(c, t)
    decreases |steps|
  {
    if steps != [] {
      StepKeepsInv(c, s, steps[0]);
      PlayKeepsInv(c, Do(c, s, steps[0]), steps[1..], t);
    }
  }

  lemma ConsumerCanStep(c: Settings, s: State) returns (k: nat)
    requires Inv(c, s) && (s.consumer == Waiting ==> s.fifo != [])
    ensures Enabled(c, s, ConsumerStep(k))
  {
    k := 0;
    if s.consumer.Freeing? {
      k :| k in s.consumer.left;
    }
  }

  lemma ProducerCanStep(c: Settings, s: State) returns (k: nat)
    requires Inv(c, s) && s.producer != Done
    ensures Enabled(c, s, ProducerStep(k))
  {
    k := 0;
    if s.producer.Marking? || s.producer.Writing? {
      k :| k in s.producer.left;
    }
  }

  lemma ConsumerLeaves(c: Settings, s: State, k: nat)
    requires Enabled(c, s, ConsumerStep(k))
    ensures Consume(c, s, k).producer == s.producer && Consume(c, s, k).sent == s.sent
  {
  }

  lemma ProducerLeaves(c: Settings, s: State, k: nat)
    requires Enabled(c, s, ProducerStep(k))
    ensures Produce(c, s, k).consumer == s.consumer && Produce(c, s, k).received == s.received
  {
  }

  /** The consumer, left to run, empties the FIFO. */
  lemma {:induction false} Drain(c: Settings, s: State) returns (steps: seq<Action>, t: State)
    requires Suitable(c) && Inv(c, s)
    ensures Play(c, s, steps) == Some(t) && Inv(c, t)
    ensures t.consumer == Waiting && t.fifo == [] && t.producer == s.producer && t.sent == s.sent
    decreases Left(c, s)
  {
    LeftNotNegative(c, s);
    if s.consumer == Waiting && s.fifo == [] {
      steps, t := [], s;
    } else {
      var k := ConsumerCanStep(c, s);
      ConsumerDrops(c, s, k);
      ConsumerLeaves(c, s, k);
      StepKeepsInv(c, s, ConsumerStep(k));
      steps, t := Drain(c, Consume(c, s, k));
      PlayFirst(c, s, ConsumerStep(k), steps);
      steps := [ConsumerStep(k)] + steps;
    }
  }

  /** The iteration is still to come, or about to start. */
  predicate ToCome(c: Settings, s: State, n: nat) {
    n < Current(c, s) || (s.producer.Marking? && n == Current(c, s)) || s.producer == Iterate(n)
  }

  lemma Advance(c: Settings, s: State, n: nat) returns (k: nat)
    requires Suitable(c) && Inv(c, s) && ToCome(c, s, n) && s.producer != Iterate(n)
    ensures Enabled(c, s, ProducerStep(k))
    ensures var t := Produce(c, s, k);
            && Inv(c, t) && 0 <= Left(c, t) < Left(c, s) && ToCome(c, t, n)
            && s.sent <= t.sent && t.consumer == s.consumer && t.received == s.received
  {
    k := ProducerCanStep(c, s);
    ProducerDrops(c, s, k);
    ProducerLeaves(c, s, k);
    IterationEnds(c, s, k);
    StepKeepsInv(c, s, ProducerStep(k));
    LeftNotNegative(c, Produce(c, s, k));
  }

  /** The producer, left to run, comes to any later iteration. */
  lemma {:induction false} ReachIteration(c: Settings, s: State, n: nat) returns (steps: seq<Action>, t: State)
    requires Suitable(c) && Inv(c, s) && ToCome(c, s, n)
    ensures OnlyProducer(steps) && Play(c, s, steps) == Some(t) && Inv(c, t)
    ensures t.producer == Iterate(n) && s.sent <= t.sent
    ensures t.consumer == s.consumer && t.received == s.received
    decreases Left(c, s)
  {
    if s.producer == Iterate(n) {
      steps, t := [], s;
    } else {
      var k := Advance(c, s, n);
      steps, t := ReachIteration(c, Produce(c, s, k), n);
      PlayFirst(c, s, ProducerStep(k), steps);
      steps := [ProducerStep(k)] + steps;
    }
  }

  lemma {:induction false} WriteAlone(c: Settings, s: State) returns (steps: seq<Action>, t: State)
    requires Suitable(c) && Inv(c, s) && s.producer.Writing?
    ensures Play(c, s, steps) == Some(t) && Inv(c, t)
    ensures t.producer == Sending(s.producer.itr, s.producer.slot) && t.sent == s.sent
    decreases Left(c, s)
  {
    LeftNotNegative(c, s);
    var k := ProducerCanStep(c, s);
    ProducerDrops(c, s, k);
    StepKeepsInv(c, s, ProducerStep(k));
    t := Produce(c, s, k);
    if t.producer.Sending? {
      steps := [];
    } else {
      steps, t := WriteAlone(c, t);
    }
    PlayFirst(c, s, ProducerStep(k), steps);
    steps := [ProducerStep(k)] + steps;
  }

  /** With no message under way, the producer's scan takes slot 0, and its message is sent. */
  lemma DeliverOne(c: Settings, s: State) returns (steps: seq<Action>, t: State)
    requires Suitable(c) && Inv(c, s) && s.producer.Scanning? && s.producer == Scanning(s.producer.itr, 0, 0)
    requires 0 < c.slots && s.consumer == Waiting && s.fifo == []
    ensures Play(c, s, steps) == Some(t) && Inv(c, t)
    ensures t.sent == s.sent + [s.producer.itr] && t.producer == Iterate(s.producer.itr)
  {
    var itr := s.producer.itr;
    assert Loose(s, 0);
    steps := ScanAlone(c, s, itr, 0, 0, 0);
    t := s.(producer := Writing(itr, 0, Below(|c.texts[itr]|)));
    PlayKeepsInv(c, s, steps, t);
    var rest, u := WriteAlone(c, t);
    PlayOn(c, s, steps, t, rest);
    steps := steps + rest;
    PlayOn(c, s, steps, u, [ProducerStep(0)]);
    steps, t := steps + [ProducerStep(0)], Produce(c, u, 0);
    PlayFirst(c, u, ProducerStep(0), []);
    StepKeepsInv(c, u, ProducerStep(0));
  }

  /** The iterations from n - 1 down to 0. */
  function Countdown(n: nat): seq<nat> {
    if n == 0 then [] else [n - 1] + Countdown(n - 1)
  }

  lemma {:induction false} CountdownSize(n: nat)
    ensures |Countdown(n)| == n
  {
    if n != 0 {
      CountdownSize(n - 1);
    }
  }

  lemma {:induction false} CountdownAt(n: nat, k: nat)
    requires k < n
    ensures k < |Countdown(n)| && Countdown(n)[k] == n - 1 - k
  {
    if k != 0 {
      CountdownAt(n - 1, k - 1);
    }
  }

  lemma CountdownNext(sent: seq<nat>, n: nat)
    requires 0 < n
    ensures sent + [n - 1] + Countdown(n - 1) == sent + Countdown(n)
  {
    assert Countdown(n) == [n - 1] + Countdown(n - 1);
  }

  lemma DeliverNext(c: Settings, s: State, n: nat) returns (steps: seq<Action>, t: State)
    requires Suitable(c) && Inv(c, s) && 0 < c.slots && 0 < n && s.producer == Iterate(n)
    ensures Play(c, s, steps) == Some(t) && Inv(c, t)
    ensures t.producer == Iterate(n - 1) && t.sent == s.sent + [n - 1]
  {
    var drain, u := Drain(c, s);
    steps, t := DeliverOne(c, u);
    PlayOn(c, s, drain, u, steps);
    steps := drain + steps;
  }

  lemma JoinUp(c: Settings, s: State, next: seq<Action>, u: State, rest: seq<Action>, t: State, n: nat)
    requires 0 < n && Play(c, s, next) == Some(u) && Play(c, u, rest) == Some(t)
    requires u.sent == s.sent + [n - 1] && t.sent == u.sent + Countdown(n - 1)
    ensures Play(c, s, next + rest) == Some(t) && t.sent == s.sent + Countdown(n)
  {
    PlayOn(c, s, next, u, rest);
    CountdownNext(s.sent, n);
  }

  /** From the start of an iteration on, the consumer can let every message through. */
  lemma {:induction false} DeliverAll(c: Settings, s: State, n: nat) returns (steps: seq<Action>, t: State)
    requires Suitable(c) && Inv(c, s) && 0 < c.slots && s.producer == Iterate(n)
    ensures Play(c, s, steps) == Some(t) && t.producer == Done && t.sent == s.sent + Countdown(n)
    decreases n
  {
    if n == 0 {
      steps, t := [], s;
      assert s.sent + Countdown(0) == s.sent;
    } else {
      var next, u := DeliverNext(c, s, n);
      steps, t := DeliverAll(c, u, n - 1);
      JoinUp(c, s, next, u, steps, t, n);
      steps := next + steps;
    }
  }

  /** Whatever was given up before, in every state all later iterations can still get their messages across. */
  lemma LaterOnesDelivered(c: Settings, acts: seq<Action>, s: State, n: nat)
      returns (steps: seq<Action>, t: State, mid: seq<nat>)
    requires Suitable(c) && Run(c, acts, s) && 0 < c.slots
    requires s.producer != Done && (n < Current(c, s) || (s.producer.Marking? && n == Current(c, s)))
    ensures Run(c, acts + steps, t) && t.producer == Done
    ensures s.sent <= mid && t.sent == mid + Countdown(n)
  {
    Safety(c, acts, s);
    var reach, u := ReachIteration(c, s, n);
    mid := u.sent;
    steps, t := DeliverAll(c, u, n);
    PlayOn(c, s, reach, u, steps);
    steps := reach + steps;
    PlayRuns(c, acts, s, steps, t);
  }

  /** Falling numbers not below lo: the k-th is at least as far above as numbers come after it. */
  lemma {:induction false} FallsFrom(items: seq<nat>, lo: nat, k: nat)
    requires forall i :: 0 <= i < |items| ==> lo <= items[i]
    requires forall i, j :: 0 <= i < j < |items| ==> items[j] < items[i]
    requires k < |items|
    ensures lo + |items| - 1 - k <= items[k]
    decreases |items| - k
  {
    if k + 1 < |items| {
      FallsFrom(items, lo, k + 1);
    }
  }

  lemma FallsThrough(items: seq<nat>, lo: nat, hi: nat)
    requires forall i :: 0 <= i < |items| ==> lo <= items[i] < hi
    requires forall i, j :: 0 <= i < j < |items| ==> items[j] < items[i]
    requires |items| == hi - lo
    ensures forall k :: 0 <= k < |items| ==> items[k] == hi - 1 - k
  {
    forall k | 0 <= k < |items|
      ensures items[k] == hi - 1 - k
    {
      FallsTo(items, hi, k);
      FallsFrom(items, lo, k);
    }
  }

  lemma SentFalls(c: Settings, s: State)
    requires Inv(c, s)
    ensures forall k :: 0 <= k < |s.sent| ==> Current(c, s) <= s.sent[k] < |c.texts|
    ensures forall j, k :: 0 <= j < k < |s.sent| ==> s.sent[k] < s.sent[j]
    ensures Idle(s) ==> |s.fifo| == |s.sent|
  {
  }

  /** The first iterations, one for each slot. */
  function OneEach(c: Settings): seq<nat>
    requires c.slots <= |c.texts|
  {
    CountdownSize(|c.texts|);
    Countdown(|c.texts|)[..c.slots]
  }

  /** With an iteration for each slot behind it, the producer alone has sent their messages. */
  lemma FirstOnesSent(c: Settings, sent: seq<nat>)
    requires forall k :: 0 <= k < |sent| ==> |c.texts| - c.slots <= sent[k] < |c.texts|
    requires forall j, k :: 0 <= j < k < |sent| ==> sent[k] < sent[j]
    requires |sent| == c.slots <= |c.texts|
    ensures sent == OneEach(c)
  {
    FallsThrough(sent, |c.texts| - c.slots, |c.texts|);
    CountdownSize(|c.texts|);
    forall k | 0 <= k < |sent|
      ensures sent[k] == Countdown(|c.texts|)[k]
    {
      CountdownAt(|c.texts|, k);
    }
  }

  /** A run of the producer alone up to the given iteration. */
  lemma AloneTo(c: Settings, acts: seq<Action>, s: State, n: nat) returns (more: seq<Action>, t: State)
    requires Suitable(c) && Run(c, acts, s) && Idle(s) && ToCome(c, s, n)
    ensures Run(c, more, t) && Inv(c, t) && Idle(t) && t.producer == Iterate(n) && s.sent <= t.sent
    ensures |t.sent| <= c.slots && Delivered(c, t)
  {
    Safety(c, acts, s);
    more, t := ReachIteration(c, s, n);
    PlayRuns(c, acts, s, more, t);
    more := acts + more;
    SentFalls(c, t);
    FifoBounded(c, more, t);
    DeliverySafety(c, more, t);
  }

  lemma FillAndFail(c: Settings, s: State, n: nat) returns (acts: seq<Action>, t: State)
    requires Suitable(c) && Initial(c, s) && 0 < c.slots && |c.texts| == c.slots + 1 + n
    ensures Run(c, acts, t) && t.producer == Iterate(n) && t.sent == OneEach(c)
  {
    assert Run(c, [], s);
    acts, t := AloneTo(c, [], s, n + 1);
    SentFalls(c, t);
    FirstOnesSent(c, t.sent);
    acts, t := AloneTo(c, acts, t, n);
  }

  lemma RunAll(c: Settings, acts: seq<Action>, s: State, n: nat) returns (more: seq<Action>, t: State)
    requires Suitable(c) && Run(c, acts, s) && 0 < c.slots && s.producer == Iterate(n)
    ensures Run(c, more, t) && t.producer == Done && t.sent == s.sent + Countdown(n)
  {
    Safety(c, acts, s);
    more, t := DeliverAll(c, s, n);
    PlayRuns(c, acts, s, more, t);
    more := acts + more;
  }

  /** With n more iterations than one for each slot and another, some run fails one scan
      and loses the message of that iteration only: the one before it for each slot, and all n
      after it, get theirs across. */
  lemma OneLost(c: Settings, s: State, n: nat) returns (acts: seq<Action>, t: State)
    requires Suitable(c) && Initial(c, s) && 0 < c.slots && |c.texts| == c.slots + 1 + n
    ensures Run(c, acts, t) && t.producer == Done
    ensures t.sent == OneEach(c) + Countdown(n)
  {
    var fill, u := FillAndFail(c, s, n);
    acts, t := RunAll(c, fill, u, n);
  }
}
