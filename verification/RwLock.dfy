/**
  The two readers-writer locks, reader-preferring and writer-preferring, used by threads
  that each lock, note the time, note it again and unlock.

  One atomic step is the code from taking the lock's mutex (or being handed it back by
  pthread_cond_wait) to the next pthread_cond_wait or unlock, or one note in the log.
 */
module RwLock {
  import opened Conditions
  import opened Tallies

  datatype Preference = ForReaders | ForWriters

  datatype Settings = Settings(preference: Preference, readers: nat, writers: nat)

  /** Outside: has not called lock.  Asleep, Woken: in its wait, before and after being
      signalled.  Entered, Stamped, Leaving: inside, having noted nothing, its acquire time,
      its release time as well.  Finished: has unlocked. */
  datatype Thread = Outside | Asleep | Woken | Entered | Stamped | Leaving | Finished

  /** What threads note inside their critical sections, in the order of their time stamps. */
  datatype Note = ReaderAcquired(r: nat) | ReaderReleased(r: nat) | WriterAcquired(w: nat) | WriterReleased(w: nat)

  /** What the lock itself sees: a writer arriving, a reader let in, a writer unlocking. */
  datatype Event = Registered(w: nat) | Admitted(r: nat) | Unlocked(w: nat)

  datatype State = State(
    readers: int,
    writers_waiting: int,
    writer_active: int,
    rs: seq<Thread>,
    ws: seq<Thread>,
    log: seq<Note>,
    order: seq<Event>)

  /** wake names the sleeping writer that a signal picks, and is ignored where none is asleep. */
  datatype Action =
    | ReaderLock(r: nat)
    | ReaderStamp(r: nat)
    | ReaderUnlock(r: nat, wake: nat)
    | WriterLock(w: nat)
    | WriterStamp(w: nat)
    | WriterUnlock(w: nat, wake: nat)
    | SpuriousReader(r: nat)
    | SpuriousWriter(w: nat)
  {
    predicate Spurious() {
      SpuriousReader? || SpuriousWriter?
    }
  }

  function Init(c: Settings): State {
    State(0, 0, 0, seq(c.readers, _ => Outside), seq(c.writers, _ => Outside), [], [])
  }

  predicate At(threads: seq<Thread>, i: nat, where: set<Thread>) {
    i < |threads| && threads[i] in where
  }

  predicate Enabled(c: Settings, s: State, a: Action) {
    match a
    case ReaderLock(r) => At(s.rs, r, {Outside, Woken})
    case ReaderStamp(r) => At(s.rs, r, {Entered, Stamped})
    case ReaderUnlock(r, wake) => At(s.rs, r, {Leaving}) && CanSignal(s.ws, Asleep, wake)
    case WriterLock(w) => At(s.ws, w, {Outside, Woken})
    case WriterStamp(w) => At(s.ws, w, {Entered, Stamped})
    case WriterUnlock(w, wake) => At(s.ws, w, {Leaving}) && CanSignal(s.ws, Asleep, wake)
    case SpuriousReader(r) => At(s.rs, r, {Asleep})
    case SpuriousWriter(w) => At(s.ws, w, {Asleep})
  }

  predicate ReaderMustWait(c: Settings, s: State) {
    s.writer_active != 0 || (c.preference == ForWriters && s.writers_waiting > 0)
  }

  predicate WriterMustWait(s: State) {
    s.writer_active != 0 || s.readers > 0
  }

  function LockReader(c: Settings, s: State, r: nat): State
    requires r < |s.rs|
  {
    if ReaderMustWait(c, s) then s.(rs := s.rs[r := Asleep])
    else s.(readers := s.readers + 1, rs := s.rs[r := Entered], order := s.order + [Admitted(r)])
  }

  function UnlockReader(s: State, r: nat, wake: nat): State
    requires r < |s.rs|
  {
    s.(readers := s.readers - 1,
       rs := s.rs[r := Finished],
       ws := if s.readers == 1 then Signal(s.ws, Asleep, Woken, wake) else s.ws)
  }

  /** A writer counts itself as waiting before it looks; one handed the mutex back already has. */
  function Register(s: State, w: nat): State
    requires w < |s.ws|
  {
    if s.ws[w] == Outside then
      s.(writers_waiting := s.writers_waiting + 1, order := s.order + [Registered(w)])
    else s
  }

  function LockWriter(s: State, w: nat): State
    requires w < |s.ws|
  {
    var t := Register(s, w);
    if WriterMustWait(t) then t.(ws := s.ws[w := Asleep])
    else t.(writers_waiting := t.writers_waiting - 1, writer_active := 1, ws := s.ws[w := Entered])
  }

  function UnlockWriter(c: Settings, s: State, w: nat, wake: nat): State
    requires w < |s.ws|
  {
    var t := s.(writer_active := 0, ws := s.ws[w := Finished], order := s.order + [Unlocked(w)]);
    match c.preference
    case ForWriters =>
      if t.writers_waiting > 0 then t.(ws := Signal(t.ws, Asleep, Woken, wake))
      else t.(rs := Broadcast(t.rs, Asleep, Woken))
    case ForReaders =>
      t.(rs := Broadcast(t.rs, Asleep, Woken), ws := if t.readers == 0 then Signal(t.ws, Asleep, Woken, wake) else t.ws)
  }

  function Do(c: Settings, s: State, a: Action): State
    requires Enabled(c, s, a)
  {
    match a
    case ReaderLock(r) => LockReader(c, s, r)
    case ReaderStamp(r) =>
      if s.rs[r] == Entered then s.(rs := s.rs[r := Stamped], log := s.log + [ReaderAcquired(r)])
      else s.(rs := s.rs[r := Leaving], log := s.log + [ReaderReleased(r)])
    case ReaderUnlock(r, wake) => UnlockReader(s, r, wake)
    case WriterLock(w) => LockWriter(s, w)
    case WriterStamp(w) =>
      if s.ws[w] == Entered then s.(ws := s.ws[w := Stamped], log := s.log + [WriterAcquired(w)])
      else s.(ws := s.ws[w := Leaving], log := s.log + [WriterReleased(w)])
    case WriterUnlock(w, wake) => UnlockWriter(c, s, w, wake)
    case SpuriousReader(r) => s.(rs := s.rs[r := Woken])
    case SpuriousWriter(w) => s.(ws := s.ws[w := Woken])
  }

  /** The state a schedule leads to, if every one of its steps is possible. */
  function After(c: Settings, acts: seq<Action>): Option<State> {
    if acts == [] then Some(Init(c))
    else
      match After(c, acts[..|acts| - 1])
      case None => None
      case Some(s) =>
        var a := acts[|acts| - 1];
        if Enabled(c, s, a) then Some(Do(c, s, a)) else None
  }

  predicate NoSpurious(acts: seq<Action>) {
    forall a :: a in acts ==> !a.Spurious()
  }

  /** No thread can take a step: each has finished or sleeps with no signal on its way. */
  ghost predicate Quiescent(c: Settings, s: State) {
    forall a: Action :: !a.Spurious() ==> !Enabled(c, s, a)
  }

  lemma QuiescentThreads(c: Settings, s: State)
    requires Quiescent(c, s)
    ensures forall i :: 0 <= i < |s.rs| ==> s.rs[i] == Asleep || s.rs[i] == Finished
    ensures forall i :: 0 <= i < |s.ws| ==> s.ws[i] == Asleep || s.ws[i] == Finished
  {
    var wake :| CanSignal(s.ws, Asleep, wake) by { SomeSleeper(s.ws, Asleep); }
    forall i | 0 <= i < |s.rs|
      ensures s.rs[i] == Asleep || s.rs[i] == Finished
    {
      assert !Enabled(c, s, ReaderLock(i)) && !Enabled(c, s, ReaderStamp(i)) && !Enabled(c, s, ReaderUnlock(i, wake));
    }
    forall i | 0 <= i < |s.ws|
      ensures s.ws[i] == Asleep || s.ws[i] == Finished
    {
      assert !Enabled(c, s, WriterLock(i)) && !Enabled(c, s, WriterStamp(i)) && !Enabled(c, s, WriterUnlock(i, wake));
    }
  }
}
