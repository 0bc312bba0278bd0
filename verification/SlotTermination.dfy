/** Every interleaving of the producer and the consumer comes to an end. */
module SlotTermination {
  import opened Ranking
  import opened SlotProtocol
  import opened SlotSafety

  /** What one sent message may still cost the consumer: taking it, reading it, freeing its slot. */
  function PerMessage(c: Settings): nat {
    1 + c.width + |c.mark|
  }

  /** What one iteration may cost both: a full scan, a write, a send and a message. */
  function PerIteration(c: Settings): nat {
    c.slots * |c.mark| + c.width + 2 + PerMessage(c)
  }

  function ProducerLeft(c: Settings, p: Producer): int {
    match p
    case Marking(i, left) => (c.slots - i - 1) * |c.mark| + |left| + |c.texts| * PerIteration(c)
    case Scanning(itr, i, k) =>
      (c.slots - i) * |c.mark| - k + c.width + 2 + PerMessage(c) + itr * PerIteration(c)
    case Writing(itr, _, left) => |left| + 1 + PerMessage(c) + itr * PerIteration(c)
    case Sending(itr, _) => 1 + PerMessage(c) + itr * PerIteration(c)
    case Done => 0
  }

  function ConsumerLeft(c: Settings, consumer: Consumer): int {
    match consumer
    case Waiting => 0
    case Reading(_, k, _) => c.width - k + |c.mark|
    case Freeing(_, left) => |left|
  }

  function Left(c: Settings, s: State): int {
    ProducerLeft(c, s.producer) + ConsumerLeft(c, s.consumer) + |s.fifo| * PerMessage(c)
  }

  lemma IterateLeft(c: Settings, itr: nat)
    ensures ProducerLeft(c, Iterate(itr)) == itr * PerIteration(c)
  {
  }

  lemma MarkLeft(c: Settings, i: nat)
    requires i <= c.slots
    ensures ProducerLeft(c, Mark(c, i)) == (c.slots - i) * |c.mark| + |c.texts| * PerIteration(c)
  {
    if i < c.slots {
      BelowSize(|c.mark|);
      OneMore(c.slots - i, |c.mark|);
    } else {
      IterateLeft(c, |c.texts|);
    }
  }

  lemma ScanLeft(c: Settings, itr: nat, i: nat, k: nat, left: set<nat>)
    requires i < c.slots && k < |c.mark| && |left| <= c.width
    ensures ProducerLeft(c, Scanning(itr, i + 1, 0)) < ProducerLeft(c, Scanning(itr, i, k))
    ensures ProducerLeft(c, Writing(itr, i, left)) < ProducerLeft(c, Scanning(itr, i, k))
  {
    OneMore(c.slots - i, |c.mark|);
    ProductNotNegative(c.slots - i - 1, |c.mark|);
  }

  lemma ScanDrops(c: Settings, s: State, itr: nat, i: nat, k: nat)
    requires itr < |c.texts| && i <= c.slots && k < |c.mark| && |c.texts[itr]| <= c.width
    requires i < c.slots ==> InSlot(s, i, k)
    requires i == c.slots ==> k == 0
    ensures ProducerLeft(c, Scan(c, s, itr, i, k)) < ProducerLeft(c, Scanning(itr, i, k))
  {
    if i == c.slots {
      IterateLeft(c, itr);
    } else {
      BelowSize(|c.texts[itr]|);
      ScanLeft(c, itr, i, k, Below(|c.texts[itr]|));
    }
  }

  lemma ProducerDrops(c: Settings, s: State, k: nat)
    requires Suitable(c) && Inv(c, s) && Enabled(c, s, ProducerStep(k))
    ensures Left(c, Produce(c, s, k)) < Left(c, s)
  {
    match s.producer
    case Marking(i, left) =>
      if left == {k} {
        MarkLeft(c, i + 1);
      }
    case Scanning(itr, i, j) => ScanDrops(c, s, itr, i, j);
    case Writing(_, _, _) =>
    case Sending(itr, _) =>
      IterateLeft(c, itr);
      OneMore(|s.fifo| + 1, PerMessage(c));
  }

  lemma ConsumerDrops(c: Settings, s: State, k: nat)
    requires Suitable(c) && Inv(c, s) && Enabled(c, s, ConsumerStep(k))
    ensures Left(c, Consume(c, s, k)) < Left(c, s)
  {
    if s.consumer.Waiting? {
      OneMore(|s.fifo|, PerMessage(c));
    }
    BelowSize(|c.mark|);
  }

  function MostSteps(c: Settings): nat {
    c.slots * |c.mark| + |c.texts| * PerIteration(c)
  }

  lemma ProducerLeftNotNegative(c: Settings, p: Producer)
    requires p.Marking? ==> p.i < c.slots
    requires p.Scanning? ==> p.i <= c.slots && p.k <= c.width
    ensures 0 <= ProducerLeft(c, p)
  {
    ProductNotNegative(|c.texts|, PerIteration(c));
    match p
    case Marking(i, _) => ProductNotNegative(c.slots - i - 1, |c.mark|);
    case Scanning(itr, i, _) =>
      ProductNotNegative(c.slots - i, |c.mark|);
      ProductNotNegative(itr, PerIteration(c));
    case Writing(itr, _, _) => ProductNotNegative(itr, PerIteration(c));
    case Sending(itr, _) => ProductNotNegative(itr, PerIteration(c));
    case Done =>
  }

  lemma LeftNotNegative(c: Settings, s: State)
    requires Inv(c, s)
    ensures 0 <= Left(c, s)
  {
    ProducerLeftNotNegative(c, s.producer);
    ProductNotNegative(|s.fifo|, PerMessage(c));
    if s.consumer.Reading? {
      assert |c.texts[s.sent[|s.received|]]| <= c.width;
    }
  }

  lemma {:induction false} EveryRunIsFinite(c: Settings, acts: seq<Action>, s: State)
    requires Suitable(c) && Run(c, acts, s)
    ensures |acts| + Left(c, s) <= MostSteps(c) && 0 <= Left(c, s)
    decreases |acts|
  {
    Safety(c, acts, s);
    LeftNotNegative(c, s);
    if acts == [] {
      MarkLeft(c, 0);
    } else {
      var front, a := acts[..|acts| - 1], acts[|acts| - 1];
      var before :| Run(c, front, before) && Enabled(c, before, a) && s == Do(c, before, a);
      EveryRunIsFinite(c, front, before);
      Safety(c, front, before);
      match a
      case ProducerStep(k) => ProducerDrops(c, before, k);
      case ConsumerStep(k) => ConsumerDrops(c, before, k);
    }
  }
}
