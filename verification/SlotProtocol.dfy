/**
  A producer and a consumer passing messages through slots of shared memory.  The content
  of a slot says whether it is free; the offsets of written slots travel through a FIFO.

  There is no lock: the two processes interleave byte by byte.  A call that formats a
  string into a slot may write its bytes in any order.
 */
module SlotProtocol {

  const NUL: char := '\0'

  /** mark is the free marker and texts[n] the message of iteration n, each with its
      terminating NUL, as the bytes that are written. */
  datatype Settings = Settings(slots: nat, width: nat, mark: string, texts: seq<string>)

  /** Marking: formatting the marker into slot i, the bytes in left still to be written.
      Scanning: comparing byte k of slot i with the marker, all bytes before it having matched.
      Writing: formatting the message of iteration itr into the slot found. */
  datatype Producer =
    | Marking(i: nat, left: set<nat>)
    | Scanning(itr: nat, i: nat, k: nat)
    | Writing(itr: nat, slot: nat, left: set<nat>)
    | Sending(itr: nat, slot: nat)
    | Done

  /** Reading: printing byte k of the slot received, got being printed already.
      Freeing: formatting the marker into the slot, the bytes in left still to be written. */
  datatype Consumer =
    | Waiting
    | Reading(slot: nat, k: nat, got: string)
    | Freeing(slot: nat, left: set<nat>)

  datatype State = State(
    slots: seq<string>,
    fifo: seq<nat>,
    producer: Producer,
    consumer: Consumer,
    sent: seq<nat>,
    received: seq<string>)

  /** k is the byte written next, where the step writes one. */
  datatype Action = ProducerStep(k: nat) | ConsumerStep(k: nat)

  function Below(n: nat): (below: set<nat>)
    ensures forall k :: k in below <==> 0 <= k < n
  {
    if n == 0 then {} else Below(n - 1) + {n - 1}
  }

  /** The producer's loop runs its body for itr - 1 down to 0. */
  function Iterate(itr: nat): Producer {
    if itr == 0 then Done else Scanning(itr - 1, 0, 0)
  }

  function Mark(c: Settings, i: nat): Producer {
    if i < c.slots then Marking(i, Below(|c.mark|)) else Iterate(|c.texts|)
  }

  predicate InSlot(s: State, i: nat, k: nat) {
    i < |s.slots| && k < |s.slots[i]|
  }

  function Put(s: State, i: nat, k: nat, b: char): State
    requires InSlot(s, i, k)
  {
    s.(slots := s.slots[i := s.slots[i][k := b]])
  }

  predicate Enabled(c: Settings, s: State, a: Action) {
    match a
    case ProducerStep(k) =>
      (match s.producer
       case Marking(i, left) => k in left && InSlot(s, i, k) && k < |c.mark|
       case Scanning(_, i, j) => i == c.slots || (InSlot(s, i, j) && j < |c.mark|)
       case Writing(itr, slot, left) => k in left && InSlot(s, slot, k) && itr < |c.texts| && k < |c.texts[itr]|
       case Sending(_, _) => true
       case Done => false)
    case ConsumerStep(k) =>
      match s.consumer
      case Waiting => s.fifo != []
      case Reading(slot, j, _) => InSlot(s, slot, j)
      case Freeing(slot, left) => k in left && InSlot(s, slot, k) && k < |c.mark|
  }

  /** One byte of strcmp, or the end of the scan with no free slot found: the iteration is given up. */
  function Scan(c: Settings, s: State, itr: nat, i: nat, k: nat): Producer
    requires i == c.slots || (InSlot(s, i, k) && k < |c.mark|)
  {
    if i == c.slots then Iterate(itr)
    else if s.slots[i][k] != c.mark[k] then Scanning(itr, i + 1, 0)
    else if c.mark[k] == NUL then Writing(itr, i, if itr < |c.texts| then Below(|c.texts[itr]|) else {})
    else Scanning(itr, i, k + 1)
  }

  function Produce(c: Settings, s: State, k: nat): State
    requires Enabled(c, s, ProducerStep(k))
  {
    match s.producer
    case Marking(i, left) =>
      Put(s, i, k, c.mark[k]).(producer := if left == {k} then Mark(c, i + 1) else Marking(i, left - {k}))
    case Scanning(itr, i, j) =>
      s.(producer := Scan(c, s, itr, i, j))
    case Writing(itr, slot, left) =>
      Put(s, slot, k, c.texts[itr][k])
      .(producer := if left == {k} then Sending(itr, slot) else Writing(itr, slot, left - {k}))
    case Sending(itr, slot) =>
      s.(fifo := s.fifo + [slot], sent := s.sent + [itr], producer := Iterate(itr))
  }

  function Consume(c: Settings, s: State, k: nat): State
    requires Enabled(c, s, ConsumerStep(k))
  {
    match s.consumer
    case Waiting =>
      s.(fifo := s.fifo[1..], consumer := Reading(s.fifo[0], 0, ""))
    case Reading(slot, j, got) =>
      if s.slots[slot][j] == NUL then
        s.(received := s.received + [got], consumer := Freeing(slot, Below(|c.mark|)))
      else
        s.(consumer := Reading(slot, j + 1, got + [s.slots[slot][j]]))
    case Freeing(slot, left) =>
      Put(s, slot, k, c.mark[k]).(consumer := if left == {k} then Waiting else Freeing(slot, left - {k}))
  }

  function Do(c: Settings, s: State, a: Action): State
    requires Enabled(c, s, a)
  {
    match a
    case ProducerStep(k) => Produce(c, s, k)
    case ConsumerStep(k) => Consume(c, s, k)
  }

  /** The segment may hold anything when the producer maps it. */
  predicate Initial(c: Settings, s: State) {
    && |s.slots| == c.slots && (forall i :: 0 <= i < c.slots ==> |s.slots[i]| == c.width)
    && s == State(s.slots, [], Mark(c, 0), Waiting, [], [])
  }

  /** Some interleaving of the two processes leads from an initial state to s. */
  ghost predicate Run(c: Settings, acts: seq<Action>, s: State)
    decreases |acts|
  {
    if acts == [] then Initial(c, s)
    else
      var a := acts[|acts| - 1];
      exists before :: Run(c, acts[..|acts| - 1], before) && Enabled(c, before, a) && s == Do(c, before, a)
  }

  /** What the protocol needs of its constants: the marker and each message are proper
      strings that fit a slot, and they differ in every byte of the marker. */
  ghost predicate Terminated(text: string) {
    0 < |text| && text[|text| - 1] == NUL && forall k :: 0 <= k < |text| - 1 ==> text[k] != NUL
  }

  ghost predicate Suitable(c: Settings) {
    && Terminated(c.mark) && |c.mark| <= c.width
    && (forall n :: 0 <= n < |c.texts| ==>
         && Terminated(c.texts[n]) && |c.mark| <= |c.texts[n]| <= c.width
         && forall k :: 0 <= k < |c.mark| ==> c.texts[n][k] != c.mark[k])
  }
}
