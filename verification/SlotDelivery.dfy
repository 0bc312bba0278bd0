/** How much the producer gets across at least: a message for each iteration, or one for each slot. */
module SlotDelivery {
  import opened SlotProtocol
  import opened SlotSafety
  import opened SlotTermination

  /** The messages given a slot so far, sent or still being written. */
  function Given(s: State): nat {
    |s.sent| + if s.producer.Writing? || s.producer.Sending? then 1 else 0
  }

  /** The scan takes the first free slot, so the slots from Given on were never used. */
  ghost predicate Untouched(c: Settings, s: State) {
    && (forall i :: Given(s) <= i < c.slots ==> !Filled(s, i) && !Taken(s, i) && i !in s.fifo)
    && (s.producer.Scanning? ==> s.producer.i <= Given(s))
  }

  /** An iteration is given up only once every slot has been used. */
  ghost predicate Delivered(c: Settings, s: State) {
    c.slots <= |s.sent| || |s.sent| + Current(c, s) == |c.texts|
  }

  lemma ProducerKeepsUntouched(c: Settings, s: State, k: nat)
    requires Suitable(c) && Inv(c, s) && Enabled(c, s, ProducerStep(k)) && Untouched(c, s)
    ensures Untouched(c, Produce(c, s, k))
  {
    if s.producer.Scanning? && s.producer.i < c.slots {
      assert Loose(s, s.producer.i) ==> Holds(s.slots[s.producer.i], c.mark);
    }
  }

  lemma ProducerKeepsDelivered(c: Settings, s: State, k: nat)
    requires Inv(c, s) && Enabled(c, s, ProducerStep(k)) && Untouched(c, s) && Delivered(c, s)
    ensures Delivered(c, Produce(c, s, k))
  {
  }

  lemma ConsumerKeepsDelivery(c: Settings, s: State, k: nat)
    requires Inv(c, s) && Enabled(c, s, ConsumerStep(k)) && Untouched(c, s) && Delivered(c, s)
    ensures Untouched(c, Consume(c, s, k)) && Delivered(c, Consume(c, s, k))
  {
    if s.consumer.Waiting? {
      assert s.fifo[0] in s.fifo && forall i :: i in s.fifo[1..] ==> i in s.fifo;
    }
  }

  lemma {:induction false} FallsTo(items: seq<nat>, n: nat, k: nat)
    requires forall i :: 0 <= i < |items| ==> items[i] < n
    requires forall i, j :: 0 <= i < j < |items| ==> items[j] < items[i]
    requires k < |items|
    ensures items[k] <= n - 1 - k
  {
    if k != 0 {
      FallsTo(items, n, k - 1);
    }
  }

  lemma {:induction false} RestBelow(items: seq<nat>, k: nat)
    requires forall i, j :: 0 <= i < j < |items| ==> items[j] < items[i]
    requires k < |items|
    ensures |items| - 1 - k <= items[k]
    decreases |items| - k
  {
    if k + 1 < |items| {
      RestBelow(items, k + 1);
    }
  }

  /** Falling numbers below n are at most n, and if they are as many they are all of them. */
  lemma Falling(items: seq<nat>, n: nat)
    requires forall i :: 0 <= i < |items| ==> items[i] < n
    requires forall i, j :: 0 <= i < j < |items| ==> items[j] < items[i]
    ensures |items| <= n
    ensures |items| == n ==> items == seq(n, k => n - 1 - k)
  {
    forall k | 0 <= k < |items|
      ensures |items| - 1 - k <= items[k] <= n - 1 - k
    {
      FallsTo(items, n, k);
      RestBelow(items, k);
    }
    if items != [] {
      FallsTo(items, n, |items| - 1);
    }
  }

  lemma {:induction false} DeliverySafety(c: Settings, acts: seq<Action>, s: State)
    requires Suitable(c) && Run(c, acts, s)
    ensures Untouched(c, s) && Delivered(c, s)
    decreases |acts|
  {
    if acts != [] {
      var front, a := acts[..|acts| - 1], acts[|acts| - 1];
      var before :| Run(c, front, before) && Enabled(c, before, a) && s == Do(c, before, a);
      Safety(c, front, before);
      DeliverySafety(c, front, before);
      match a
      case ProducerStep(k) =>
        ProducerKeepsUntouched(c, before, k);
        ProducerKeepsDelivered(c, before, k);
      case ConsumerStep(k) =>
        ConsumerKeepsDelivery(c, before, k);
    }
  }

  /** However slow the consumer, the producer sends every message if there are slots for all of
      them, and otherwise at least as many as there are slots. */
  lemma ProducerDelivers(c: Settings, acts: seq<Action>, s: State)
    requires Suitable(c) && Run(c, acts, s) && s.producer == Done
    ensures |s.sent| == |c.texts| || c.slots <= |s.sent| < |c.texts|
    ensures |c.texts| <= c.slots ==> s.sent == seq(|c.texts|, k => |c.texts| - 1 - k)
  {
    DeliverySafety(c, acts, s);
    Safety(c, acts, s);
    Falling(s.sent, |c.texts|);
  }

  // ---- that much, and no more, while the consumer does not run

  lemma Extend(c: Settings, acts: seq<Action>, s: State, a: Action) returns (more: seq<Action>)
    requires Run(c, acts, s) && Enabled(c, s, a)
    ensures more == acts + [a] && Run(c, more, Do(c, s, a))
  {
    more := acts + [a];
    assert more[..|more| - 1] == acts && more[|more| - 1] == a;
    assert Run(c, more[..|more| - 1], s) && Enabled(c, s, a);
  }

  predicate Idle(s: State) {
    s.consumer == Waiting && s.received == []
  }

  lemma {:induction false} ProducerAlone(c: Settings, acts: seq<Action>, s: State)
      returns (more: seq<Action>, t: State)
    requires Suitable(c) && Run(c, acts, s) && Idle(s)
    ensures Run(c, more, t) && Idle(t) && t.producer == Done
    decreases Left(c, s)
  {
    if s.producer == Done {
      more, t := acts, s;
    } else {
      Safety(c, acts, s);
      StuckOnlyAtEnd(c, acts, s);
      LeftNotNegative(c, s);
      var k :| Enabled(c, s, ProducerStep(k));
      ProducerDrops(c, s, k);
      more := Extend(c, acts, s, ProducerStep(k));
      more, t := ProducerAlone(c, more, Produce(c, s, k));
    }
  }

  /** From any segment, the producer running alone sends exactly as many messages as it must. */
  lemma DeliveryBoundReached(c: Settings, s: State) returns (acts: seq<Action>, t: State)
    requires Suitable(c) && Initial(c, s)
    ensures Run(c, acts, t) && t.producer == Done
    ensures |t.sent| == if |c.texts| <= c.slots then |c.texts| else c.slots
  {
    assert Run(c, [], s);
    acts, t := ProducerAlone(c, [], s);
    ProducerDelivers(c, acts, t);
    FifoBounded(c, acts, t);
    Safety(c, acts, t);
  }

  /** Every run gets every message across exactly if there is a slot for each. */
  lemma AllSentIff(c: Settings)
    requires Suitable(c)
    ensures |c.texts| <= c.slots <==>
            forall acts, s :: Run(c, acts, s) && s.producer == Done ==> |s.sent| == |c.texts|
  {
    if |c.texts| <= c.slots {
      forall acts, s | Run(c, acts, s) && s.producer == Done
        ensures |s.sent| == |c.texts|
      {
        ProducerDelivers(c, acts, s);
      }
    } else {
      var slots := seq(c.slots, _ => seq(c.width, _ => NUL));
      var acts, t := DeliveryBoundReached(c, State(slots, [], Mark(c, 0), Waiting, [], []));
      assert Run(c, acts, t) && |t.sent| < |c.texts|;
    }
  }
}
