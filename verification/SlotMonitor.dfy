/** The shared segment as one array of bytes, with one method for each access to it or to the FIFO. */
module SlotMonitor {
  import opened Ranking
  import opened SlotProtocol

  lemma RowFits(slots: nat, width: nat, i: nat)
    requires i < slots
    ensures 0 <= i * width && i * width + width <= slots * width
  {
    Multiply(i + 1, slots, width);
    ProductNotNegative(i, width);
    assert (i + 1) * width == i * width + width;
  }

  function Row(bytes: string, slots: nat, width: nat, i: nat): (row: string)
    requires |bytes| == slots * width && i < slots
    ensures |row| == width
  {
    RowFits(slots, width, i);
    bytes[i * width..i * width + width]
  }

  /** The slots of a segment: slot i starts at byte i * width. */
  function Rows(bytes: string, slots: nat, width: nat): seq<string>
    requires |bytes| == slots * width
  {
    seq(slots, i requires 0 <= i < slots => Row(bytes, slots, width, i))
  }

  lemma RowsSet(bytes: string, slots: nat, width: nat, i: nat, k: nat, b: char)
    requires |bytes| == slots * width && i < slots && k < width
    ensures i * width + k < |bytes|
    ensures Rows(bytes[i * width + k := b], slots, width) ==
            Rows(bytes, slots, width)[i := Row(bytes, slots, width, i)[k := b]]
    ensures Row(bytes, slots, width, i)[k] == bytes[i * width + k]
  {
    RowFits(slots, width, i);
    var after := bytes[i * width + k := b];
    forall j | 0 <= j < slots && j != i
      ensures Row(after, slots, width, j) == Row(bytes, slots, width, j)
    {
      RowFits(slots, width, j);
      if j < i {
        RowFits(i, width, j);
      } else {
        RowFits(j, width, i);
      }
    }
    assert Row(after, slots, width, i) == Row(bytes, slots, width, i)[k := b];
  }

  class SharedSegment {
    const c: Settings
    var bytes: array<char>
    var fifo: seq<nat>
    var producer: Producer
    var consumer: Consumer
    // What has gone through so far, for the proof only.
    ghost var sent: seq<nat>
    ghost var received: seq<string>

    ghost predicate Valid()
      reads this, bytes
    {
      bytes.Length == c.slots * c.width
    }

    ghost function View(): State
      requires Valid()
      reads this, bytes
    {
      State(Rows(bytes[..], c.slots, c.width), fifo, producer, consumer, sent, received)
    }

    constructor (c: Settings, mapped: array<char>)
      requires mapped.Length == c.slots * c.width
      ensures Valid() && this.c == c && bytes == mapped
      ensures Initial(c, View())
    {
      this.c := c;
      bytes := mapped;
      fifo, producer, consumer := [], Mark(c, 0), Waiting;
      sent, received := [], [];
    }

    method PutByte(i: nat, k: nat, b: char)
      requires Valid() && i < c.slots && k < c.width
      modifies bytes
      ensures Valid()
      ensures Rows(bytes[..], c.slots, c.width) ==
              old(View().slots)[i := old(View().slots[i])[k := b]]
    {
      RowsSet(bytes[..], c.slots, c.width, i, k, b);
      bytes[i * c.width + k] := b;
    }

    method GetByte(i: nat, k: nat) returns (b: char)
      requires Valid() && i < c.slots && k < c.width
      ensures b == View().slots[i][k]
    {
      RowsSet(bytes[..], c.slots, c.width, i, k, '?');
      b := bytes[i * c.width + k];
    }

    /** One byte of sprintf marking a slot before the loop starts. */
    method MarkByte(k: nat)
      requires Valid() && producer.Marking? && Enabled(c, View(), ProducerStep(k))
      modifies this, bytes
      ensures Valid() && bytes == old(bytes) && View() == Do(c, old(View()), ProducerStep(k))
    {
      var Marking(i, left) := producer;
      PutByte(i, k, c.mark[k]);
      producer := if left == {k} then Mark(c, i + 1) else Marking(i, left - {k});
    }

    /** One byte of strcmp in the scan for a free slot, or the end of the scan. */
    method CompareByte()
      requires Valid() && producer.Scanning? && Enabled(c, View(), ProducerStep(0))
      modifies this
      ensures Valid() && bytes == old(bytes) && View() == Do(c, old(View()), ProducerStep(0))
    {
      var Scanning(itr, i, k) := producer;
      if i == c.slots {
        producer := Iterate(itr);
        return;
      }
      var b := GetByte(i, k);
      if b != c.mark[k] {
        producer := Scanning(itr, i + 1, 0);
      } else if b == NUL {
        producer := Writing(itr, i, if itr < |c.texts| then Below(|c.texts[itr]|) else {});
      } else {
        producer := Scanning(itr, i, k + 1);
      }
    }

    /** One byte of snprintf writing the message. */
    method WriteByte(k: nat)
      requires Valid() && producer.Writing? && Enabled(c, View(), ProducerStep(k))
      modifies this, bytes
      ensures Valid() && bytes == old(bytes) && View() == Do(c, old(View()), ProducerStep(k))
    {
      var Writing(itr, slot, left) := producer;
      PutByte(slot, k, c.texts[itr][k]);
      producer := if left == {k} then Sending(itr, slot) else Writing(itr, slot, left - {k});
    }

    method SendOffset()
      requires Valid() && producer.Sending?
      modifies this
      ensures Valid() && bytes == old(bytes) && View() == Do(c, old(View()), ProducerStep(0))
    {
      var Sending(itr, slot) := producer;
      fifo := fifo + [slot];
      sent := sent + [itr];
      producer := Iterate(itr);
    }

    method ReceiveOffset()
      requires Valid() && consumer.Waiting? && fifo != []
      modifies this
      ensures Valid() && bytes == old(bytes) && View() == Do(c, old(View()), ConsumerStep(0))
    {
      consumer := Reading(fifo[0], 0, "");
      fifo := fifo[1..];
    }

    /** One byte of printf showing the message. */
    method ReadByte()
      requires Valid() && consumer.Reading? && Enabled(c, View(), ConsumerStep(0))
      modifies this
      ensures Valid() && bytes == old(bytes) && View() == Do(c, old(View()), ConsumerStep(0))
    {
      var Reading(slot, k, got) := consumer;
      var b := GetByte(slot, k);
      if b == NUL {
        received := received + [got];
        consumer := Freeing(slot, Below(|c.mark|));
      } else {
        consumer := Reading(slot, k + 1, got + [b]);
      }
    }

    /** One byte of sprintf marking the slot free again. */
    method FreeByte(k: nat)
      requires Valid() && consumer.Freeing? && Enabled(c, View(), ConsumerStep(k))
      modifies this, bytes
      ensures Valid() && bytes == old(bytes) && View() == Do(c, old(View()), ConsumerStep(k))
    {
      var Freeing(slot, left) := consumer;
      PutByte(slot, k, c.mark[k]);
      consumer := if left == {k} then Waiting else Freeing(slot, left - {k});
    }
  }
}
