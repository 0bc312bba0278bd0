/**
  Threads taking turns: thread t downs semaphore t, prints, and ups the next semaphore.

  Semaphore t is downed by thread t alone, so its condition variable has at most one
  sleeper.  zem_down tests its count once, with no loop, so a thread that is woken takes
  the count without looking again.
 */
module TokenRing {
  import opened Ranking
  import opened Tallies

  datatype Settings = Settings(threads: nat, rounds: nat)

  /** Calling: about to down its semaphore.  Asleep, Woken: in the wait, before and after
      being signalled.  Holding: past its down.  Printed: before its up. */
  datatype Phase = Calling | Asleep | Woken | Holding | Printed | Finished

  datatype Thread = Thread(phase: Phase, round: nat)

  datatype State = State(counts: seq<int>, ts: seq<Thread>, prints: seq<nat>)

  datatype Action = Down(t: nat) | Print(t: nat) | Up(t: nat) | Spurious(t: nat)

  function Begin(c: Settings, round: nat): Thread {
    Thread(if round < c.rounds then Calling else Finished, round)
  }

  function Init(c: Settings): State {
    State(seq(c.threads, t => if t == 0 then 1 else 0), seq(c.threads, _ => Begin(c, 0)), [])
  }

  function NextThread(t: nat, threads: nat): nat
    requires 0 < threads
  {
    (t + 1) % threads
  }

  predicate Enabled(c: Settings, s: State, a: Action) {
    && a.t < |s.ts|
    && var phase := s.ts[a.t].phase;
       match a
       case Down(_) => phase == Calling || phase == Woken
       case Print(_) => phase == Holding
       case Up(_) => phase == Printed
       case Spurious(_) => phase == Asleep
  }

  function At(s: State, t: nat, phase: Phase): State
    requires t < |s.ts|
  {
    s.(ts := s.ts[t := s.ts[t].(phase := phase)])
  }

  function RunDown(s: State, t: nat): State
    requires t < |s.ts| == |s.counts|
  {
    if s.ts[t].phase == Calling && s.counts[t] <= 0 then At(s, t, Asleep)
    else At(s, t, Holding).(counts := s.counts[t := s.counts[t] - 1])
  }

  function Wake(ts: seq<Thread>, t: nat): seq<Thread>
    requires t < |ts|
  {
    if ts[t].phase == Asleep then ts[t := ts[t].(phase := Woken)] else ts
  }

  function RunUp(c: Settings, s: State, t: nat): State
    requires t < |s.ts| == |s.counts|
  {
    var next := NextThread(t, |s.ts|);
    s.(counts := s.counts[next := s.counts[next] + 1],
       ts := Wake(s.ts, next)[t := Begin(c, s.ts[t].round + 1)])
  }

  function Do(c: Settings, s: State, a: Action): State
    requires |s.ts| == |s.counts| && Enabled(c, s, a)
  {
    match a
    case Down(t) => RunDown(s, t)
    case Print(t) => At(s, t, Printed).(prints := s.prints + [t])
    case Up(t) => RunUp(c, s, t)
    case Spurious(t) => At(s, t, Woken)
  }

  /** The state a schedule leads to, if every one of its steps is possible. */
  function After(c: Settings, acts: seq<Action>): (r: Option<State>)
    ensures r.Some? ==> |r.value.ts| == |r.value.counts| == c.threads
  {
    if acts == [] then Some(Init(c))
    else
      match After(c, acts[..|acts| - 1])
      case None => None
      case Some(s) =>
        var a := acts[|acts| - 1];
        if Enabled(c, s, a) then Some(Do(c, s, a)) else None
  }

  predicate NoSpurious(acts: seq<Action>) {
    forall a :: a in acts ==> !a.Spurious?
  }

  ghost predicate Quiescent(c: Settings, s: State) {
    forall a: Action :: !a.Spurious? ==> !Enabled(c, s, a)
  }

  /** The token is with turn: on its semaphore, or held by it.  Nothing else is on any
      semaphore or held by any thread. */
  ghost predicate Token(c: Settings, s: State, turn: nat) {
    && |s.ts| == |s.counts| == c.threads && turn < c.threads
    && s.counts[turn] == (if s.ts[turn].phase in {Holding, Printed} then 0 else 1)
    && s.ts[turn].phase != Asleep
    && (forall t :: 0 <= t < c.threads && t != turn ==>
          s.counts[t] == 0 && s.ts[t].phase in {Calling, Asleep, Woken, Finished})
  }

  /** Only the thread the token is with has been woken. */
  ghost predicate Undisturbed(c: Settings, s: State, turn: nat) {
    && |s.ts| == c.threads
    && forall t :: 0 <= t < c.threads && s.ts[t].phase == Woken ==> t == turn
  }

  /** After lap full turns of the ring, the threads before turn are one round ahead of the others. */
  ghost predicate Rounds(c: Settings, s: State, lap: nat, turn: nat) {
    && |s.ts| == c.threads
    && (forall t :: 0 <= t < c.threads ==>
         && s.ts[t].round == (if t < turn then lap + 1 else lap) <= c.rounds
         && (s.ts[t].phase == Finished <==> s.ts[t].round == c.rounds))
  }

  ghost predicate Prints(c: Settings, s: State, lap: nat, turn: nat)
    requires turn < |s.ts| && 0 < c.threads
  {
    && |s.prints| == lap * c.threads + turn + (if s.ts[turn].phase == Printed then 1 else 0)
    && (forall k :: 0 <= k < |s.prints| ==> s.prints[k] == k % c.threads)
  }

  ghost predicate Inv(c: Settings, s: State, lap: nat, turn: nat) {
    Token(c, s, turn) && Rounds(c, s, lap, turn) && Prints(c, s, lap, turn)
  }

  lemma TurnOf(lap: nat, threads: nat, turn: nat)
    requires turn < threads
    ensures (lap * threads + turn) % threads == turn
  {
    var total := lap * threads + turn;
    var quotient := total / threads;
    assert total == quotient * threads + total % threads;
    assert (lap - quotient) * threads == total % threads - turn;
    OnlyZeroMultiple(lap - quotient, threads);
  }

  lemma UpMovesToken(c: Settings, s: State, turn: nat, turn': nat)
    requires Token(c, s, turn) && Enabled(c, s, Up(turn)) && turn' == NextThread(turn, c.threads)
    ensures Token(c, RunUp(c, s, turn), turn')
  {
  }

  lemma UpAdvancesRound(c: Settings, s: State, lap: nat, turn: nat, lap': nat, turn': nat)
    requires Token(c, s, turn) && Rounds(c, s, lap, turn) && Enabled(c, s, Up(turn))
    requires turn' == NextThread(turn, c.threads) && lap' == if turn + 1 < c.threads then lap else lap + 1
    ensures Rounds(c, RunUp(c, s, turn), lap', turn')
  {
    NextThreadIs(turn, c.threads);
  }

  lemma UpKeepsInv(c: Settings, s: State, lap: nat, turn: nat) returns (lap': nat, turn': nat)
    requires Inv(c, s, lap, turn) && Enabled(c, s, Up(turn))
    ensures Inv(c, RunUp(c, s, turn), lap', turn')
  {
    turn' := NextThread(turn, c.threads);
    lap' := if turn + 1 < c.threads then lap else lap + 1;
    UpMovesToken(c, s, turn, turn');
    UpAdvancesRound(c, s, lap, turn, lap', turn');
    NextPlace(lap, c.threads, turn);
  }

  lemma NextThreadIs(turn: nat, threads: nat)
    requires turn < threads
    ensures NextThread(turn, threads) == if turn + 1 < threads then turn + 1 else 0
  {
  }

  lemma NextPlace(lap: nat, threads: nat, turn: nat)
    requires turn < threads
    ensures var lap' := if turn + 1 < threads then lap else lap + 1;
            lap' * threads + NextThread(turn, threads) == lap * threads + turn + 1
  {
    NextThreadIs(turn, threads);
    OneMore(lap + 1, threads);
  }

  /** A down that resumes after its wait finds a count to take, although it does not look. */
  predicate FindsCount(s: State, a: Action)
    requires |s.ts| == |s.counts|
  {
    a.Down? && a.t < |s.ts| && s.ts[a.t].phase == Woken ==> 0 < s.counts[a.t]
  }

  /** Every step keeps the token unique, spurious wakeups included, but for a resumed down without a count. */
  lemma StepKeepsInv(c: Settings, s: State, a: Action, lap: nat, turn: nat) returns (lap': nat, turn': nat)
    requires Inv(c, s, lap, turn) && Enabled(c, s, a) && FindsCount(s, a)
    ensures Inv(c, Do(c, s, a), lap', turn')
    ensures turn' == if a.Up? then NextThread(turn, c.threads) else turn
  {
    if a.Up? {
      lap', turn' := UpKeepsInv(c, s, lap, turn);
    } else {
      TurnOf(lap, c.threads, turn);
      lap', turn' := lap, turn;
    }
  }

  lemma StepLeavesUndisturbed(c: Settings, s: State, a: Action, lap: nat, turn: nat)
    requires Inv(c, s, lap, turn) && Undisturbed(c, s, turn) && Enabled(c, s, a) && !a.Spurious?
    ensures FindsCount(s, a)
    ensures Undisturbed(c, Do(c, s, a), if a.Up? then NextThread(turn, c.threads) else turn)
  {
  }

  /** In every run without spurious wakeups there is one token, and it goes round in order. */
  lemma {:induction false} Safety(c: Settings, acts: seq<Action>, s: State) returns (lap: nat, turn: nat)
    requires 0 < c.threads && NoSpurious(acts) && After(c, acts) == Some(s)
    ensures Inv(c, s, lap, turn) && Undisturbed(c, s, turn)
    decreases |acts|
  {
    if acts == [] {
      lap, turn := 0, 0;
    } else {
      var front, a := acts[..|acts| - 1], acts[|acts| - 1];
      var before := After(c, front).value;
      lap, turn := Safety(c, front, before);
      assert a in acts;
      StepLeavesUndisturbed(c, before, a, lap, turn);
      lap, turn := StepKeepsInv(c, before, a, lap, turn);
    }
  }

  /** With every thread asleep or finished, all are finished and the token is back at thread 0. */
  lemma TokenComesHome(c: Settings, s: State, lap: nat, turn: nat)
    requires Token(c, s, turn) && Rounds(c, s, lap, turn)
    requires forall t :: 0 <= t < c.threads ==> s.ts[t].phase in {Asleep, Finished}
    ensures lap == c.rounds && turn == 0
    ensures forall t :: 0 <= t < c.threads ==> s.ts[t].phase == Finished
    ensures s.counts == Init(c).counts
  {
    assert s.ts[turn].phase == Finished && s.ts[turn].round == lap;
    assert s.ts[0].round <= c.rounds;
  }

  /** Where a run ends, every thread has printed in every round, in turn, and the token is home. */
  lemma QuiescentMeansDone(c: Settings, acts: seq<Action>, s: State)
    requires 0 < c.threads && NoSpurious(acts) && After(c, acts) == Some(s) && Quiescent(c, s)
    ensures s.counts == Init(c).counts
    ensures |s.prints| == c.rounds * c.threads && forall k :: 0 <= k < |s.prints| ==> s.prints[k] == k % c.threads
    ensures |s.ts| == c.threads && forall t :: 0 <= t < c.threads ==> s.ts[t].phase == Finished
  {
    var lap, turn := Safety(c, acts, s);
    forall t | 0 <= t < c.threads
      ensures s.ts[t].phase in {Asleep, Finished}
    {
      assert !Enabled(c, s, Down(t)) && !Enabled(c, s, Print(t)) && !Enabled(c, s, Up(t));
    }
    TokenComesHome(c, s, lap, turn);
  }

  // ---- what each operation does, in any state

  /** zem_down on arrival sleeps if and only if the count is not positive; after its wait it takes
      one whatever the count is; and a thread that is through prints. */
  lemma DownSteps(c: Settings, s: State, t: nat)
    requires |s.ts| == |s.counts| && t < |s.ts|
    ensures s.ts[t].phase == Calling || s.ts[t].phase == Woken ==>
              Enabled(c, s, Down(t)) &&
              Do(c, s, Down(t)) ==
              if s.ts[t].phase == Calling && s.counts[t] <= 0 then s.(ts := s.ts[t := s.ts[t].(phase := Asleep)])
              else s.(counts := s.counts[t := s.counts[t] - 1], ts := s.ts[t := s.ts[t].(phase := Holding)])
    ensures s.ts[t].phase == Holding ==>
              Enabled(c, s, Print(t)) &&
              Do(c, s, Print(t)) == s.(prints := s.prints + [t], ts := s.ts[t := s.ts[t].(phase := Printed)])
  {
  }

  /** zem_up adds one to the count of the next thread, the first after the last, and wakes it if it sleeps. */
  lemma UpStep(c: Settings, s: State, t: nat)
    requires |s.ts| == |s.counts| && t < |s.ts| && s.ts[t].phase == Printed
    ensures Enabled(c, s, Up(t))
    ensures var u, n := Do(c, s, Up(t)), if t + 1 < |s.ts| then t + 1 else 0;
            && u.prints == s.prints && u.counts == s.counts[n := s.counts[n] + 1]
            && |u.ts| == |s.ts| && (forall v :: 0 <= v < |s.ts| && v != t && v != n ==> u.ts[v] == s.ts[v])
            && u.ts[t].round == s.ts[t].round + 1
            && u.ts[t].phase == (if s.ts[t].round + 1 < c.rounds then Calling else Finished)
            && (n != t ==> u.ts[n].round == s.ts[n].round &&
                           u.ts[n].phase == if s.ts[n].phase == Asleep then Woken else s.ts[n].phase)
  {
    NextThreadIs(t, |s.ts|);
  }

  // ---- what it does in any run without spurious wakeups

  predicate Inside(t: Thread) {
    t.phase == Woken || t.phase == Holding || t.phase == Printed
  }

  /** A thread that downs its semaphore gets through if and only if the next print is its own and
      no thread is between down and up; else it sleeps. */
  lemma DownOutcome(c: Settings, acts: seq<Action>, s: State, t: nat)
    requires 0 < c.threads && NoSpurious(acts) && After(c, acts) == Some(s)
    requires t < |s.ts| && s.ts[t].phase == Calling
    ensures Enabled(c, s, Down(t))
    ensures var through := |s.prints| % c.threads == t && forall u :: 0 <= u < |s.ts| ==> !Inside(s.ts[u]);
            Do(c, s, Down(t)) ==
            if through then s.(counts := s.counts[t := 0], ts := s.ts[t := s.ts[t].(phase := Holding)])
            else s.(ts := s.ts[t := s.ts[t].(phase := Asleep)])
  {
    var lap, turn := Safety(c, acts, s);
    TurnOf(lap, c.threads, turn);
  }

  /** A woken thread goes on only on its turn, and takes the one count there is. */
  lemma ResumeOutcome(c: Settings, acts: seq<Action>, s: State, t: nat)
    requires 0 < c.threads && NoSpurious(acts) && After(c, acts) == Some(s)
    requires t < |s.ts| && s.ts[t].phase == Woken
    ensures Enabled(c, s, Down(t)) && |s.prints| % c.threads == t && s.counts[t] == 1
    ensures Do(c, s, Down(t)) == s.(counts := s.counts[t := 0], ts := s.ts[t := s.ts[t].(phase := Holding)])
  {
    var lap, turn := Safety(c, acts, s);
    TurnOf(lap, c.threads, turn);
  }

  /** An up ends a thread's round, the last one if it has done all, and passes one count on to the
      thread whose print is next, waking it if it sleeps. */
  lemma UpOutcome(c: Settings, acts: seq<Action>, s: State, t: nat)
    requires 0 < c.threads && NoSpurious(acts) && After(c, acts) == Some(s)
    requires t < |s.ts| && s.ts[t].phase == Printed
    ensures Enabled(c, s, Up(t)) && |s.prints| % c.threads < |s.ts| == |s.counts|
    ensures var u, n := Do(c, s, Up(t)), |s.prints| % c.threads;
            && u.prints == s.prints && u.counts == s.counts[n := 1]
            && |u.ts| == |s.ts| && (forall v :: 0 <= v < |s.ts| && v != t && v != n ==> u.ts[v] == s.ts[v])
            && u.ts[t].round == s.ts[t].round + 1
            && u.ts[t].phase == (if s.ts[t].round + 1 == c.rounds then Finished else Calling)
            && (n != t ==> u.ts[n].round == s.ts[n].round &&
                           u.ts[n].phase == if s.ts[n].phase == Asleep then Woken else s.ts[n].phase)
  {
    var lap, turn := Safety(c, acts, s);
    NextThreadIs(turn, c.threads);
    NextPlace(lap, c.threads, turn);
    var lap' := if turn + 1 < c.threads then lap else lap + 1;
    TurnOf(lap', c.threads, NextThread(turn, c.threads));
  }

  // ---- termination

  function Left(c: Settings): Thread -> nat {
    (t: Thread) =>
      if c.rounds <= t.round then 0
      else 6 * (c.rounds - t.round - 1) +
           match t.phase
           case Calling => 6
           case Asleep => 5
           case Woken => 4
           case Holding => 3
           case Printed => 2
           case Finished => 0
  }

  lemma MoveLeavesLess(c: Settings, s: State, a: Action)
    requires |s.ts| == |s.counts| && Enabled(c, s, a) && !a.Spurious? && !a.Up? && s.ts[a.t].round < c.rounds
    ensures Tally(Do(c, s, a).ts, Left(c)) < Tally(s.ts, Left(c))
  {
    TallySet(s.ts, a.t, Do(c, s, a).ts[a.t], Left(c));
  }

  lemma WakeLeavesNoMore(c: Settings, ts: seq<Thread>, t: nat)
    requires t < |ts|
    ensures Tally(Wake(ts, t), Left(c)) <= Tally(ts, Left(c))
  {
    if ts[t].phase == Asleep {
      TallySet(ts, t, ts[t].(phase := Woken), Left(c));
    }
  }

  lemma UpLeavesLess(c: Settings, s: State, t: nat)
    requires |s.ts| == |s.counts| && Enabled(c, s, Up(t)) && s.ts[t].round < c.rounds
    ensures Tally(RunUp(c, s, t).ts, Left(c)) < Tally(s.ts, Left(c))
  {
    var woken := Wake(s.ts, NextThread(t, |s.ts|));
    WakeLeavesNoMore(c, s.ts, NextThread(t, |s.ts|));
    TallySet(woken, t, Begin(c, s.ts[t].round + 1), Left(c));
  }

  lemma StepLeavesLess(c: Settings, s: State, a: Action, lap: nat, turn: nat)
    requires Inv(c, s, lap, turn) && Enabled(c, s, a) && !a.Spurious?
    ensures Tally(Do(c, s, a).ts, Left(c)) < Tally(s.ts, Left(c))
  {
    if a.Up? {
      UpLeavesLess(c, s, a.t);
    } else {
      MoveLeavesLess(c, s, a);
    }
  }

  lemma {:induction false} EveryRunIsFinite(c: Settings, acts: seq<Action>, s: State)
    requires 0 < c.threads && NoSpurious(acts) && After(c, acts) == Some(s)
    ensures |acts| + Tally(s.ts, Left(c)) <= 6 * c.rounds * c.threads
    decreases |acts|
  {
    if acts == [] {
      TallyAtMost(s.ts, Left(c), 6 * c.rounds);
    } else {
      var front := acts[..|acts| - 1];
      var last := acts[|acts| - 1];
      assert last in acts;
      var before := After(c, front).value;
      EveryRunIsFinite(c, front, before);
      var lap, turn := Safety(c, front, before);
      StepLeavesLess(c, before, last, lap, turn);
    }
  }

  // ---- what spurious wakeups do

  /** The prints so far are in turn, and no count is below zero. */
  predicate InTurn(c: Settings, s: State) {
    && (forall k :: 0 <= k < |s.prints| ==> 0 < c.threads && s.prints[k] == k % c.threads)
    && (forall t :: 0 <= t < |s.counts| ==> 0 <= s.counts[t])
  }

  predicate AlwaysInTurn(c: Settings, acts: seq<Action>) {
    && (acts != [] ==> AlwaysInTurn(c, acts[..|acts| - 1]))
    && match After(c, acts) case Some(s) => InTurn(c, s) case None => true
  }

  /** Throughout the schedule, a resumed down finds a count to take. */
  predicate AlwaysFindsCount(c: Settings, acts: seq<Action>) {
    acts != [] ==>
      var front := acts[..|acts| - 1];
      && AlwaysFindsCount(c, front)
      && match After(c, front) case Some(s) => FindsCount(s, acts[|acts| - 1]) case None => true
  }

  lemma InvInTurn(c: Settings, s: State, lap: nat, turn: nat)
    requires Inv(c, s, lap, turn)
    ensures InTurn(c, s)
  {
  }

  lemma {:induction false} CountsFoundKeepTurns(c: Settings, acts: seq<Action>, s: State) returns (lap: nat, turn: nat)
    requires 0 < c.threads && After(c, acts) == Some(s) && AlwaysFindsCount(c, acts)
    ensures Inv(c, s, lap, turn) && AlwaysInTurn(c, acts)
    decreases |acts|
  {
    if acts == [] {
      lap, turn := 0, 0;
    } else {
      var front := acts[..|acts| - 1];
      var before := After(c, front).value;
      lap, turn := CountsFoundKeepTurns(c, front, before);
      lap, turn := StepKeepsInv(c, before, acts[|acts| - 1], lap, turn);
    }
    InvInTurn(c, s, lap, turn);
  }

  lemma {:induction false} TurnsNeedCounts(c: Settings, acts: seq<Action>, s: State)
    requires After(c, acts) == Some(s) && AlwaysInTurn(c, acts)
    ensures AlwaysFindsCount(c, acts)
    decreases |acts|
  {
    if acts != [] {
      var front, a := acts[..|acts| - 1], acts[|acts| - 1];
      var before := After(c, front).value;
      TurnsNeedCounts(c, front, before);
      assert a.Down? && before.ts[a.t].phase == Woken ==> s.counts[a.t] == before.counts[a.t] - 1;
    }
  }

  /** With any spurious wakeups, a run stays in turn exactly if no down resumes without a count:
      if the test of zem_down, made once more after the wait, would always have let it pass. */
  lemma InTurnIff(c: Settings, acts: seq<Action>, s: State)
    requires 0 < c.threads && After(c, acts) == Some(s)
    ensures AlwaysInTurn(c, acts) <==> AlwaysFindsCount(c, acts)
  {
    if AlwaysFindsCount(c, acts) {
      var _, _ := CountsFoundKeepTurns(c, acts, s);
    }
    if AlwaysInTurn(c, acts) {
      TurnsNeedCounts(c, acts, s);
    }
  }

  /** With one thread or no rounds nobody ever sleeps, so there is nobody to wake. */
  lemma {:induction false} NobodySleeps(c: Settings, acts: seq<Action>, s: State)
    requires c.threads == 1 || (0 < c.threads && c.rounds == 0)
    requires After(c, acts) == Some(s)
    ensures NoSpurious(acts)
    decreases |acts|
  {
    if acts != [] {
      var front := acts[..|acts| - 1];
      var before := After(c, front).value;
      NobodySleeps(c, front, before);
      var lap, turn := Safety(c, front, before);
      assert forall a :: a in acts ==> a in front || a == acts[|acts| - 1];
    }
  }

  /** Every run of a ring stays in turn, whatever is woken spuriously, for exactly these settings. */
  lemma EveryRunInTurnIff(c: Settings)
    requires 0 < c.threads
    ensures c.threads == 1 || c.rounds == 0 <==> forall acts, s :: After(c, acts) == Some(s) ==> InTurn(c, s)
  {
    if c.threads == 1 || c.rounds == 0 {
      forall acts, s | After(c, acts) == Some(s)
        ensures InTurn(c, s)
      {
        NobodySleeps(c, acts, s);
        var lap, turn := Safety(c, acts, s);
        InvInTurn(c, s, lap, turn);
      }
    } else {
      var acts, s := SpuriousWakeupBreaksTurns(c);
      assert !InTurn(c, s);
    }
  }

  /** The count is not tested again after the wait: one spurious wakeup makes a second
      token, takes a count below zero and prints out of turn. */
  lemma SpuriousWakeupBreaksTurns(c: Settings) returns (acts: seq<Action>, s: State)
    requires 2 <= c.threads && 1 <= c.rounds
    ensures acts == [Down(1), Spurious(1), Down(1), Print(1)] && After(c, acts) == Some(s)
    ensures s.counts[1] == -1 && s.prints == [1]
  {
    var s1 := Do(c, Init(c), Down(1));
    var s2 := Do(c, s1, Spurious(1));
    var s3 := Do(c, s2, Down(1));
    s := Do(c, s3, Print(1));
    var a1, a2, a3 := [Down(1)], [Down(1), Spurious(1)], [Down(1), Spurious(1), Down(1)];
    acts := a3 + [Print(1)];
    assert a1[..0] == [] && a2[..1] == a1 && a3[..2] == a2 && acts[..3] == a3;
    assert After(c, []) == Some(Init(c)) && After(c, a1) == Some(s1);
    assert After(c, a2) == Some(s2) && After(c, a3) == Some(s3);
  }
}
