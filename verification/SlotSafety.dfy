/** Ownership of the slots, and what the consumer receives. */
module SlotSafety {
  import opened SlotProtocol

  /** The text is in the slot, whatever follows it there. */
  ghost predicate Holds(slot: string, text: string) {
    |text| <= |slot| && forall k :: 0 <= k < |text| ==> slot[k] == text[k]
  }

  ghost predicate Shape(c: Settings, s: State) {
    && |c.mark| <= c.width && (forall n :: 0 <= n < |c.texts| ==> |c.texts[n]| <= c.width)
    && |s.slots| == c.slots && forall i :: 0 <= i < c.slots ==> |s.slots[i]| == c.width
  }

  /** The slot the producer is filling, and the one the consumer has taken. */
  predicate Filled(s: State, i: nat) {
    (s.producer.Writing? || s.producer.Sending?) && s.producer.slot == i
  }

  predicate Taken(s: State, i: nat) {
    !s.consumer.Waiting? && s.consumer.slot == i
  }

  /** How many sent messages come before those in the FIFO. */
  function Ahead(s: State): nat {
    |s.received| + if s.consumer.Reading? then 1 else 0
  }

  /** No slot is in two hands: queued twice, filled, or taken at the same time. */
  ghost predicate Owners(c: Settings, s: State) {
    && (forall i :: 0 <= i < |s.fifo| ==> s.fifo[i] < c.slots)
    && (forall i, j :: 0 <= i < j < |s.fifo| ==> s.fifo[i] != s.fifo[j])
    && (!s.consumer.Waiting? ==> s.consumer.slot < c.slots && s.consumer.slot !in s.fifo)
    && (s.producer.Writing? || s.producer.Sending? ==>
          s.producer.slot < c.slots && s.producer.slot !in s.fifo && !Taken(s, s.producer.slot))
  }

  /** In nobody's hands, and marked by now. */
  predicate Loose(s: State, i: nat) {
    !Filled(s, i) && !Taken(s, i) && i !in s.fifo && (s.producer.Marking? ==> i < s.producer.i)
  }

  ghost predicate Marked(c: Settings, s: State)
    requires Shape(c, s)
  {
    forall i :: 0 <= i < c.slots && Loose(s, i) ==> Holds(s.slots[i], c.mark)
  }

  ghost predicate ProducerInv(c: Settings, s: State)
    requires Shape(c, s)
  {
    match s.producer
    case Marking(i, left) =>
      && i < c.slots && left <= Below(|c.mark|) && left != {}
      && (forall k :: 0 <= k < |c.mark| && k !in left ==> s.slots[i][k] == c.mark[k])
      && s.fifo == [] && s.consumer == Waiting && s.sent == []
    case Scanning(itr, i, k) =>
      && itr < |c.texts| && i <= c.slots && k < |c.mark| && (i == c.slots ==> k == 0)
      && (forall j :: 0 <= j < k ==> s.slots[i][j] == c.mark[j])
    case Writing(itr, slot, left) =>
      && itr < |c.texts| && slot < c.slots && left <= Below(|c.texts[itr]|) && left != {}
      && (forall k :: 0 <= k < |c.texts[itr]| && k !in left ==> s.slots[slot][k] == c.texts[itr][k])
    case Sending(itr, slot) =>
      itr < |c.texts| && slot < c.slots && Holds(s.slots[slot], c.texts[itr])
    case Done => true
  }

  ghost predicate ConsumerInv(c: Settings, s: State)
    requires Shape(c, s)
  {
    match s.consumer
    case Waiting => true
    case Reading(slot, k, got) =>
      && |s.received| < |s.sent| && s.sent[|s.received|] < |c.texts|
      && var text := c.texts[s.sent[|s.received|]]; k < |text| && got == text[..k]
    case Freeing(slot, left) =>
      && slot < c.slots && left <= Below(|c.mark|) && left != {}
      && (forall k :: 0 <= k < |c.mark| ==> (s.slots[slot][k] == c.mark[k] <==> k !in left))
  }

  /** The iteration the producer is in: all messages sent come from earlier ones. */
  function Current(c: Settings, s: State): nat {
    match s.producer
    case Marking(_, _) => |c.texts|
    case Scanning(itr, _, _) => itr + 1
    case Writing(itr, _, _) => itr + 1
    case Sending(itr, _) => itr + 1
    case Done => 0
  }

  ghost predicate Sent(c: Settings, s: State) {
    && (forall k :: 0 <= k < |s.sent| ==> Current(c, s) <= s.sent[k] < |c.texts|)
    && (forall j, k :: 0 <= j < k < |s.sent| ==> s.sent[k] < s.sent[j])
    && Ahead(s) + |s.fifo| == |s.sent|
    && (forall k :: 0 <= k < |s.received| ==> s.received[k] == Printed(c, s.sent[k]))
  }

  /** The slots and messages in use exist. */
  ghost predicate Indexed(c: Settings, s: State) {
    && (forall i :: 0 <= i < |s.fifo| ==> s.fifo[i] < c.slots)
    && (!s.consumer.Waiting? ==> s.consumer.slot < c.slots)
    && Ahead(s) + |s.fifo| == |s.sent| && forall k :: 0 <= k < |s.sent| ==> s.sent[k] < |c.texts|
  }

  /** The messages sent and not yet received are in the slots taken and queued, oldest first. */
  ghost predicate Stored(c: Settings, s: State)
    requires Shape(c, s) && Indexed(c, s)
  {
    && (s.consumer.Reading? ==> Holds(s.slots[s.consumer.slot], c.texts[s.sent[|s.received|]]))
    && (forall j :: 0 <= j < |s.fifo| ==> Holds(s.slots[s.fifo[j]], c.texts[s.sent[Ahead(s) + j]]))
  }

  /** What printing the message of an iteration shows: its text without the NUL. */
  function Printed(c: Settings, itr: nat): string {
    if itr < |c.texts| && c.texts[itr] != "" then c.texts[itr][..|c.texts[itr]| - 1] else ""
  }

  ghost predicate Ownership(c: Settings, s: State) {
    Shape(c, s) && Owners(c, s) && Marked(c, s)
  }

  ghost predicate Inv(c: Settings, s: State) {
    Ownership(c, s) && ProducerInv(c, s) && ConsumerInv(c, s) && Sent(c, s) && Stored(c, s)
  }

  /** A slot with a pending message differs from the marker in every byte of it. */
  predicate Unread(s: State, i: nat) {
    i in s.fifo || (s.consumer.Reading? && s.consumer.slot == i)
  }

  lemma UnreadUnmarked(c: Settings, s: State, i: nat, k: nat)
    requires Suitable(c) && Inv(c, s) && i < c.slots && Unread(s, i) && k < |c.mark|
    ensures s.slots[i][k] != c.mark[k]
  {
  }

  /** The scan takes a slot only once the consumer has written its whole marker. */
  lemma ScanFindsFree(c: Settings, s: State, itr: nat, i: nat, k: nat)
    requires Suitable(c) && Inv(c, s) && s.producer == Scanning(itr, i, k) && i < c.slots
    requires s.slots[i][k] == c.mark[k] == NUL
    ensures Loose(s, i)
  {
  }

  lemma InitInv(c: Settings, s: State)
    requires Suitable(c) && Initial(c, s)
    ensures Inv(c, s)
  {
  }

  lemma ScanKeepsOwnership(c: Settings, s: State)
    requires Suitable(c) && Inv(c, s) && Enabled(c, s, ProducerStep(0)) && s.producer.Scanning?
    ensures Ownership(c, Produce(c, s, 0))
  {
    if Produce(c, s, 0).producer.Writing? {
      ScanFindsFree(c, s, s.producer.itr, s.producer.i, s.producer.k);
    }
  }

  lemma WriteKeepsOwnership(c: Settings, s: State, k: nat)
    requires Inv(c, s) && Enabled(c, s, ProducerStep(k)) && !s.producer.Scanning?
    ensures Ownership(c, Produce(c, s, k))
  {
  }

  lemma ProducerKeepsOwnership(c: Settings, s: State, k: nat)
    requires Suitable(c) && Inv(c, s) && Enabled(c, s, ProducerStep(k))
    ensures Ownership(c, Produce(c, s, k))
  {
    if s.producer.Scanning? {
      ScanKeepsOwnership(c, s);
    } else {
      WriteKeepsOwnership(c, s, k);
    }
  }

  lemma ScanKeepsProducer(c: Settings, s: State)
    requires Suitable(c) && Inv(c, s) && Enabled(c, s, ProducerStep(0)) && s.producer.Scanning?
    ensures ProducerInv(c, Produce(c, s, 0))
  {
    assert 0 in Below(|c.texts[s.producer.itr]|);
  }

  lemma WriteKeepsProducer(c: Settings, s: State, k: nat)
    requires Suitable(c) && Inv(c, s) && Enabled(c, s, ProducerStep(k)) && !s.producer.Scanning?
    ensures Shape(c, Produce(c, s, k)) && ProducerInv(c, Produce(c, s, k))
  {
    assert 0 in Below(|c.mark|);
  }

  lemma ProducerKeepsProducer(c: Settings, s: State, k: nat)
    requires Suitable(c) && Inv(c, s) && Enabled(c, s, ProducerStep(k))
    ensures Shape(c, Produce(c, s, k)) && ProducerInv(c, Produce(c, s, k))
  {
    if s.producer.Scanning? {
      ScanKeepsProducer(c, s);
    } else {
      WriteKeepsProducer(c, s, k);
    }
  }

  lemma ProducerKeepsConsumer(c: Settings, s: State, k: nat)
    requires Suitable(c) && Inv(c, s) && Enabled(c, s, ProducerStep(k))
    ensures Shape(c, Produce(c, s, k)) && ConsumerInv(c, Produce(c, s, k))
  {
  }

  lemma ProducerKeepsSent(c: Settings, s: State, k: nat)
    requires Suitable(c) && Inv(c, s) && Enabled(c, s, ProducerStep(k))
    ensures Sent(c, Produce(c, s, k))
  {
  }

  /** Messages stay stored while no slot that holds one is written, whether the FIFO stays
      as it is, its head is taken, or the message being read is received. */
  lemma StoredFrame(c: Settings, s: State, t: State, head: nat)
    requires Shape(c, s) && Indexed(c, s) && Stored(c, s)
    requires Shape(c, t) && Indexed(c, t)
    requires t.sent == s.sent && head <= |s.fifo| && t.fifo == s.fifo[head..]
    requires t.consumer.Reading? ==> Unread(s, t.consumer.slot) && t.received == s.received &&
                                     t.consumer.slot == if head == 0 then s.consumer.slot else s.fifo[0]
    requires head != 0 ==> head == 1 && s.consumer.Waiting?
    requires forall i :: 0 <= i < c.slots && Unread(s, i) && Unread(t, i) ==> t.slots[i] == s.slots[i]
    ensures Stored(c, t)
  {
  }

  lemma ProducerSparesUnread(c: Settings, s: State, k: nat)
    requires Inv(c, s) && Enabled(c, s, ProducerStep(k))
    ensures forall i :: 0 <= i < c.slots && Unread(s, i) ==> Produce(c, s, k).slots[i] == s.slots[i]
  {
  }

  lemma ConsumerSparesUnread(c: Settings, s: State, k: nat)
    requires Inv(c, s) && Enabled(c, s, ConsumerStep(k))
    ensures forall i :: 0 <= i < c.slots && Unread(s, i) ==> Consume(c, s, k).slots[i] == s.slots[i]
  {
  }

  lemma SendingKeepsStored(c: Settings, s: State)
    requires Inv(c, s) && s.producer.Sending? && Owners(c, Produce(c, s, 0)) && Sent(c, Produce(c, s, 0))
    ensures Stored(c, Produce(c, s, 0))
  {
  }

  lemma ProducerKeepsStored(c: Settings, s: State, k: nat)
    requires Inv(c, s) && Enabled(c, s, ProducerStep(k))
    requires Ownership(c, Produce(c, s, k)) && Sent(c, Produce(c, s, k))
    ensures Stored(c, Produce(c, s, k))
  {
    if s.producer.Sending? {
      SendingKeepsStored(c, s);
    } else {
      ProducerSparesUnread(c, s, k);
      StoredFrame(c, s, Produce(c, s, k), 0);
    }
  }

  lemma ConsumerKeepsOwnership(c: Settings, s: State, k: nat)
    requires Suitable(c) && Inv(c, s) && Enabled(c, s, ConsumerStep(k))
    ensures Ownership(c, Consume(c, s, k))
  {
  }

  lemma ConsumerKeepsProducer(c: Settings, s: State, k: nat)
    requires Suitable(c) && Inv(c, s) && Enabled(c, s, ConsumerStep(k))
    ensures Shape(c, Consume(c, s, k)) && ProducerInv(c, Consume(c, s, k))
  {
  }

  lemma ConsumerKeepsConsumer(c: Settings, s: State, k: nat)
    requires Suitable(c) && Inv(c, s) && Enabled(c, s, ConsumerStep(k))
    ensures Shape(c, Consume(c, s, k)) && ConsumerInv(c, Consume(c, s, k))
  {
  }

  lemma ConsumerKeepsSent(c: Settings, s: State, k: nat)
    requires Suitable(c) && Inv(c, s) && Enabled(c, s, ConsumerStep(k))
    ensures Sent(c, Consume(c, s, k))
  {
  }

  lemma ConsumerKeepsStored(c: Settings, s: State, k: nat)
    requires Inv(c, s) && Enabled(c, s, ConsumerStep(k))
    requires Ownership(c, Consume(c, s, k)) && Sent(c, Consume(c, s, k))
    ensures Stored(c, Consume(c, s, k))
  {
    ConsumerSparesUnread(c, s, k);
    StoredFrame(c, s, Consume(c, s, k), if s.consumer.Waiting? then 1 else 0);
  }

  lemma StepKeepsInv(c: Settings, s: State, a: Action)
    requires Suitable(c) && Inv(c, s) && Enabled(c, s, a)
    ensures Inv(c, Do(c, s, a))
  {
    match a
    case ProducerStep(k) =>
      ProducerKeepsOwnership(c, s, k);
      ProducerKeepsProducer(c, s, k);
      ProducerKeepsConsumer(c, s, k);
      ProducerKeepsSent(c, s, k);
      ProducerKeepsStored(c, s, k);
    case ConsumerStep(k) =>
      ConsumerKeepsOwnership(c, s, k);
      ConsumerKeepsProducer(c, s, k);
      ConsumerKeepsConsumer(c, s, k);
      ConsumerKeepsSent(c, s, k);
      ConsumerKeepsStored(c, s, k);
  }

  lemma {:induction false} Safety(c: Settings, acts: seq<Action>, s: State)
    requires Suitable(c) && Run(c, acts, s)
    ensures Inv(c, s)
    decreases |acts|
  {
    if acts == [] {
      InitInv(c, s);
    } else {
      var front, a := acts[..|acts| - 1], acts[|acts| - 1];
      var before :| Run(c, front, before) && Enabled(c, before, a) && s == Do(c, before, a);
      Safety(c, front, before);
      StepKeepsInv(c, before, a);
    }
  }

  /** However the bytes interleave, the consumer prints the messages sent, uncorrupted, in
      order, each once and none that was not sent. */
  lemma ReceivedIsPrefix(c: Settings, acts: seq<Action>, s: State)
    requires Suitable(c) && Run(c, acts, s)
    ensures |s.received| <= |s.sent|
    ensures forall k :: 0 <= k < |s.received| ==> s.received[k] == Printed(c, s.sent[k])
    ensures forall j, k :: 0 <= j < k < |s.sent| ==> s.sent[k] < s.sent[j] < |c.texts|
  {
    Safety(c, acts, s);
  }

  /** Each slot is filled, taken, or queued at one place, never two of these; and a slot
      that is none of them carries the whole marker, while a queued one or one being read
      shows none of it. */
  lemma SlotsPartitioned(c: Settings, acts: seq<Action>, s: State, i: nat)
    requires Suitable(c) && Run(c, acts, s) && i < c.slots && !s.producer.Marking?
    ensures Shape(c, s)
    ensures !(Filled(s, i) && Taken(s, i)) && !(Filled(s, i) && i in s.fifo) && !(Taken(s, i) && i in s.fifo)
    ensures forall j, k :: 0 <= j < k < |s.fifo| ==> s.fifo[j] != s.fifo[k]
    ensures !Filled(s, i) && !Taken(s, i) && i !in s.fifo ==> Holds(s.slots[i], c.mark)
    ensures Unread(s, i) ==> forall k :: 0 <= k < |c.mark| ==> s.slots[i][k] != c.mark[k]
  {
    Safety(c, acts, s);
    if Unread(s, i) {
      forall k | 0 <= k < |c.mark|
        ensures s.slots[i][k] != c.mark[k]
      {
        UnreadUnmarked(c, s, i, k);
      }
    }
  }

  /** Distinct numbers below n are at most n. */
  lemma {:induction false} Pigeonhole(items: seq<nat>, n: nat)
    requires forall i :: 0 <= i < |items| ==> items[i] < n
    requires forall i, j :: 0 <= i < j < |items| ==> items[i] != items[j]
    ensures |items| <= n
  {
    var seen := set i | 0 <= i < |items| :: items[i];
    SetSize(items, seen);
    assert seen <= Below(n);
    BelowSize(n);
    Subset(seen, Below(n));
  }

  lemma {:induction false} SetSize(items: seq<nat>, seen: set<nat>)
    requires forall i, j :: 0 <= i < j < |items| ==> items[i] != items[j]
    requires seen == set i | 0 <= i < |items| :: items[i]
    ensures |seen| == |items|
  {
    if items != [] {
      var last := |items| - 1;
      var rest := set i | 0 <= i < last :: items[..last][i];
      SetSize(items[..last], rest);
      assert seen == rest + {items[last]};
    }
  }

  lemma {:induction false} BelowSize(n: nat)
    ensures |Below(n)| == n
  {
    if n != 0 {
      BelowSize(n - 1);
    }
  }

  lemma Subset(a: set<nat>, b: set<nat>)
    requires a <= b
    ensures |a| <= |b|
  {
    assert b == a + (b - a);
  }

  lemma FifoBounded(c: Settings, acts: seq<Action>, s: State)
    requires Suitable(c) && Run(c, acts, s)
    ensures |s.fifo| <= c.slots
  {
    Safety(c, acts, s);
    Pigeonhole(s.fifo, c.slots);
  }

  /** No byte of a slot is read or written past its end, and neither process ever blocks
      except the consumer on an empty FIFO and the producer at its end. */
  lemma StuckOnlyAtEnd(c: Settings, acts: seq<Action>, s: State)
    requires Suitable(c) && Run(c, acts, s)
    ensures (forall k :: !Enabled(c, s, ProducerStep(k))) <==> s.producer == Done
    ensures (forall k :: !Enabled(c, s, ConsumerStep(k))) <==> s.consumer == Waiting && s.fifo == []
  {
    Safety(c, acts, s);
    match s.producer {
      case Marking(_, left) => var k :| k in left; assert Enabled(c, s, ProducerStep(k));
      case Scanning(_, _, _) => assert Enabled(c, s, ProducerStep(0));
      case Writing(_, _, left) => var k :| k in left; assert Enabled(c, s, ProducerStep(k));
      case Sending(_, _) => assert Enabled(c, s, ProducerStep(0));
      case Done =>
    }
    match s.consumer {
      case Waiting => assert s.fifo != [] ==> Enabled(c, s, ConsumerStep(0));
      case Reading(_, _, _) => assert Enabled(c, s, ConsumerStep(0));
      case Freeing(_, left) => var k :| k in left; assert Enabled(c, s, ConsumerStep(k));
    }
  }

  /** When neither process can step, everything sent was received and every slot is free. */
  lemma AllReceivedAtEnd(c: Settings, acts: seq<Action>, s: State)
    requires Suitable(c) && Run(c, acts, s)
    requires forall a :: !Enabled(c, s, a)
    ensures s.received == seq(|s.sent|, k requires 0 <= k < |s.sent| => Printed(c, s.sent[k]))
    ensures |s.slots| == c.slots && forall i :: 0 <= i < c.slots ==> Holds(s.slots[i], c.mark)
  {
    assert forall k :: !Enabled(c, s, ProducerStep(k)) && !Enabled(c, s, ConsumerStep(k));
    StuckOnlyAtEnd(c, acts, s);
    Safety(c, acts, s);
  }
}
