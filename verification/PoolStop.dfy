/** The end of the thread pool: when the call of `stop` can return. */
module PoolStop {
  import opened Wrappers
  import opened WorkStealing
  import opened PoolRuns

  /** No call of `post` is past its look at the flag and on its way to a worker. */
  predicate NoPostInFlight(s: State) {
    forall p :: p in s.posters ==> s.posters[p] == TestStop || s.posters[p] == Returned || s.posters[p] == Thrown
  }

  /** Worker `w` is never woken for no reason. */
  predicate Undisturbed(actions: seq<Action>, w: nat) {
    SpuriousWake(w) !in actions
  }

  // ----- a notification that comes too early

  /** The pool has been stopped and `stop` waits for worker `w`, which sleeps or is about to. */
  ghost predicate Lost(s: State, w: nat) {
    && s.stop && NoPostInFlight(s) && s.stopper == Join(w)
    && w < |s.workers| && (s.workers[w] == FallAsleep || s.workers[w] == Asleep)
  }

  lemma StaysLost(s: State, w: nat, a: Action)
    requires Shape(s) && Lost(s, w) && a != SpuriousWake(w) && Next(s, a).Some?
    ensures Lost(Next(s, a).value, w)
  {
    hide Place;
    if a.StepWorker? && a.w != w {
      WorkerElsewhere(s, a.w, w);
    }
  }

  /** From then on nothing that anyone does wakes the worker: `stop` does not return. */
  lemma {:induction false} LostForGood(s: State, w: nat, actions: seq<Action>)
    requires Shape(s) && Lost(s, w) && Undisturbed(actions, w)
    ensures Lost(Execute(s, actions), w)
    decreases |actions|
  {
    hide Lost, Next;
    if actions != [] {
      var front, a := actions[..|actions| - 1], actions[|actions| - 1];
      assert a in actions && forall b :: b in front ==> b in actions;
      LostForGood(s, w, front);
      if Next(Execute(s, front), a).Some? {
        StaysLost(Execute(s, front), w, a);
      }
    }
  }

  // ----- a notification in time

  /** `stop` is about to notify worker `w`, and nobody else is going to. */
  ghost predicate AboutToNotify(s: State, w: nat) {
    Inv(s) && s.stop && NoPostInFlight(s) && s.stopper == NotifyFor(w) && w < |s.workers|
  }

  lemma Notified(s: State, w: nat)
    requires AboutToNotify(s, w)
    ensures Shape(s) && w < |s.workers| && Next(s, StepStop).Some?
    ensures var s' := Next(s, StepStop).value;
      Shape(s') && if s.workers[w] == FallAsleep then Lost(s', w) else Deserted(s', w)
  {
    hide Conserved, WakeOk;
    ShapeStep(s, StepStop);
    assert MutexOk(s, w);
  }

  lemma {:induction false} AloneIsUndisturbed(w: nat, n: nat)
    ensures Undisturbed(Alone(w, n), w)
  {
    assert forall a :: a in Alone(w, n) ==> a == StepWorker(w);
  }

  /** Exactly when worker `w` can still end, so that `stop` can go on, with nobody waking it for no reason: if and
      only if at its notification it was not between its last look at the flag and its sleep. */
  lemma EndsExactly(s: State, w: nat)
    requires AboutToNotify(s, w)
    ensures Shape(s) && w < |s.workers| && Next(s, StepStop).Some? && Shape(Next(s, StepStop).value)
    ensures var s' := Next(s, StepStop).value;
      (exists actions :: Undisturbed(actions, w)
                         && w < |Execute(s', actions).workers| && Execute(s', actions).workers[w] == Exited)
      <==> s.workers[w] != FallAsleep
  {
    hide Inv, Next, AboutToNotify;
    Notified(s, w);
    var s' := Next(s, StepStop).value;
    if s.workers[w] == FallAsleep {
      forall actions | Undisturbed(actions, w)
        ensures w < |Execute(s', actions).workers| ==> Execute(s', actions).workers[w] != Exited
      {
        LostForGood(s', w, actions);
      }
    } else {
      var n := EndsAfterStop(s', w);
      AloneIsUndisturbed(w, n);
      assert Undisturbed(Alone(w, n), w);
    }
  }

  // ----- when stop can return

  /** `stop` has been called, and no call of `post` is on its way to a worker. */
  ghost predicate Stopping(s: State) {
    Inv(s) && s.stop && s.stopper != NotCalled && NoPostInFlight(s)
  }

  /** The worker that `stop` waits for is asleep, or about to be. */
  predicate WaitsInVain(s: State) {
    && s.stopper.Join? && s.stopper.w < |s.workers|
    && (s.workers[s.stopper.w] == FallAsleep || s.workers[s.stopper.w] == Asleep)
  }

  /** How far `stop` is from its return. */
  function StepsOfStop(s: State): nat {
    var n := |s.workers|;
    match s.stopper
    case AllJoined => 0
    case NotifyFor(w) => if w < n then 2 * (n - w) + 2 else 1
    case Join(w) => if w < n then 2 * (n - w) + 1 else 2
    case NotCalled => 2 * n + 3
  }

  /** How far the worker that `stop` turns to is from where `stop` needs it. */
  function StepsOfWorker(s: State): nat
    requires Shape(s)
  {
    match s.stopper
    case NotifyFor(w) => if w < |s.workers| && s.workers[w] == FallAsleep then 1 else 0
    case Join(w) => if w < |s.workers| then StepsToExit(s, w) else 0
    case _ => 0
  }

  /** Who has to step for `stop` to get on: `stop`, or the worker it turns to. */
  function Turn(s: State): Action {
    match s.stopper
    case NotifyFor(w) => if w < |s.workers| && s.workers[w] == FallAsleep then StepWorker(w) else StepStop
    case Join(w) => if w < |s.workers| && s.workers[w] != Exited then StepWorker(w) else StepStop
    case _ => StepStop
  }

  lemma TurnIsTaken(s: State)
    requires Stopping(s) && !WaitsInVain(s) && s.stopper != AllJoined
    ensures Next(s, Turn(s)).Some?
    ensures var s' := Next(s, Turn(s)).value;
      && Shape(s') && !WaitsInVain(s') && s'.stop && s'.stopper != NotCalled && s'.posters == s.posters
      && (|| StepsOfStop(s') < StepsOfStop(s)
          || (StepsOfStop(s') == StepsOfStop(s)
              && (|| Tasks(s'.queues) < Tasks(s.queues)
                  || (Tasks(s'.queues) == Tasks(s.queues) && StepsOfWorker(s') < StepsOfWorker(s)))))
  {
    hide Conserved, WakeOk, Place, Tasks;
    ShapeTurn(s);
    if s.stopper.Join? && s.stopper.w < |s.workers| && s.workers[s.stopper.w] != Exited {
      var w := s.stopper.w;
      hide Next;
      assert MutexOk(s, w);
      assert Deserted(s, w);
      NearerToExit(s, w);
      OwnStep(s, w);
    }
  }

  lemma OwnStep(s: State, w: nat)
    requires Shape(s) && w < |s.workers| && Next(s, StepWorker(w)).Some?
    ensures var s' := Next(s, StepWorker(w)).value;
      |s'.workers| == |s.workers| && s'.stopper == s.stopper && s'.stop == s.stop && s'.posters == s.posters
  {
    hide Place;
  }

  lemma ShapeTurn(s: State)
    requires Stopping(s)
    ensures Next(s, Turn(s)).Some? ==> Shape(Next(s, Turn(s)).value)
  {
    hide Conserved, WakeOk, MutexOk, Next;
    if Next(s, Turn(s)).Some? {
      ShapeStep(s, Turn(s));
    }
  }

  lemma {:induction false} ExecuteFirst(s: State, a: Action, rest: seq<Action>)
    requires Shape(s) && Next(s, a).Some? && Shape(Next(s, a).value)
    ensures Execute(s, [a] + rest) == Execute(Next(s, a).value, rest)
    decreases |rest|
  {
    hide Next;
    var actions := [a] + rest;
    if rest == [] {
      assert actions[..0] == [] && actions == [a];
    } else {
      assert actions[..|rest|] == [a] + rest[..|rest| - 1];
      ExecuteFirst(s, a, rest[..|rest| - 1]);
    }
  }

  lemma {:induction false} Returns(s: State) returns (actions: seq<Action>)
    requires Stopping(s) && !WaitsInVain(s)
    ensures forall w :: Undisturbed(actions, w)
    ensures Execute(s, actions).stopper == AllJoined
    decreases StepsOfStop(s), Tasks(s.queues), StepsOfWorker(s)
  {
    hide Inv, Next, Tasks, StepsOfStop, StepsOfWorker, WaitsInVain;
    HasShape(s);
    if s.stopper == AllJoined {
      actions := [];
    } else {
      TurnIsTaken(s);
      StepKeepsInv(s, Turn(s));
      var s' := Next(s, Turn(s)).value;
      var rest := Returns(s');
      ExecuteFirst(s, Turn(s), rest);
      actions := [Turn(s)] + rest;
      forall w ensures Undisturbed(actions, w) {
        assert Undisturbed(rest, w);
      }
    }
  }

  /** `stop` can return, without anyone being woken for no reason, if and only if the worker it waits for is not
      asleep or about to be. */
  lemma ReturnsExactly(s: State)
    requires Stopping(s)
    ensures Shape(s)
    ensures (exists actions :: (forall w :: Undisturbed(actions, w)) && Execute(s, actions).stopper == AllJoined)
            <==> !WaitsInVain(s)
  {
    hide Inv, Next, Execute;
    HasShape(s);
    if WaitsInVain(s) {
      forall actions | forall w :: Undisturbed(actions, w) ensures Execute(s, actions).stopper != AllJoined {
        assert Undisturbed(actions, s.stopper.w);
        LostForGood(s, s.stopper.w, actions);
      }
    } else {
      var actions := Returns(s);
      assert forall w :: Undisturbed(actions, w);
    }
  }

  // ----- stop returns only after all workers

  /** How many workers `stop` has joined. */
  function Joined(s: State): nat {
    match s.stopper
    case NotCalled => 0
    case NotifyFor(w) => w
    case Join(w) => w
    case AllJoined => |s.workers|
  }

  predicate JoinedHaveEnded(s: State) {
    forall w :: 0 <= w < Joined(s) && w < |s.workers| ==> s.workers[w] == Exited
  }

  lemma JoinStep(s: State, a: Action)
    requires Shape(s) && JoinedHaveEnded(s) && Next(s, a).Some?
    ensures JoinedHaveEnded(Next(s, a).value)
  {
    hide WorkerStep, PosterStep;
    if a.StepWorker? {
      EndedStay(s, a.w);
    } else if a.StepPoster? {
      PosterLeavesEnded(s, a.p);
    }
  }

  lemma EndedStay(s: State, w: nat)
    requires Shape(s) && w < |s.workers| && WorkerStep(s, w).Some?
    ensures var s' := WorkerStep(s, w).value;
      s.workers[w] != Exited && s'.workers == s.workers[w := s'.workers[w]] && s'.stopper == s.stopper
  {
    hide Place;
  }

  lemma PosterLeavesEnded(s: State, p: nat)
    requires Shape(s) && p in s.posters && PosterStep(s, p).Some?
    ensures var s' := PosterStep(s, p).value;
      && |s'.workers| == |s.workers| && s'.stopper == s.stopper
      && forall w :: 0 <= w < |s.workers| && s.workers[w] == Exited ==> s'.workers[w] == Exited
  {
    hide Place;
  }

  /** In every interleaving, when `stop` returns, all workers have ended. */
  lemma {:induction false} ReturnsLast(n: nat, actions: seq<Action>)
    requires n > 0 && Shape(Initial(n))
    ensures JoinedHaveEnded(Execute(Initial(n), actions))
    decreases |actions|
  {
    hide Next, JoinedHaveEnded;
    if actions == [] {
      NobodyJoined(n);
    } else {
      var front, a := actions[..|actions| - 1], actions[|actions| - 1];
      ReturnsLast(n, front);
      if Next(Execute(Initial(n), front), a).Some? {
        JoinStep(Execute(Initial(n), front), a);
      }
    }
  }

  lemma NobodyJoined(n: nat)
    ensures JoinedHaveEnded(Initial(n))
  {}

  // ----- the input

  /** The only worker of a pool looks for work, finds none and is about to sleep; then `stop` is called. */
  function JustBeforeSleep(): seq<Action> {
    Alone(0, 7) + [CallStop]
  }

  function PcAfter(k: nat): WorkerPC {
    if k == 0 then LoopTest else if k == 1 then Scan(0) else if k == 2 then LockIdle else if k == 3 then SetIdle
    else if k == 4 then PredQueue else if k == 5 then PredIdle else if k == 6 then PredStop else FallAsleep
  }

  function Sleepy(k: nat): State {
    Initial(1).(workers := [PcAfter(k)], mutexes := [if k < 3 then Nobody else Worker])
  }

  lemma GetsSleepy(k: nat)
    requires k < 7
    ensures Shape(Sleepy(k)) && Next(Sleepy(k), StepWorker(0)) == Some(Sleepy(k + 1))
  {
    var s := Sleepy(k);
    assert Place(0, 1) == 0;
    assert s.workers[0 := PcAfter(k + 1)] == [PcAfter(k + 1)];
    assert s.idle[0 := true] == s.idle && s.mutexes[0 := Worker] == [Worker];
  }

  lemma {:induction false} SleepyAfter(k: nat)
    requires k <= 7
    ensures Shape(Initial(1)) && Execute(Initial(1), Alone(0, k)) == Sleepy(k)
  {
    hide Next;
    if k > 0 {
      SleepyAfter(k - 1);
      GetsSleepy(k - 1);
      assert Alone(0, k)[..k - 1] == Alone(0, k - 1);
    } else {
      assert Initial(1).workers == [LoopTest] && Initial(1).mutexes == [Nobody];
    }
  }

  /** The notification finds nobody asleep, the worker goes to sleep, and `stop` waits for it for good. */
  lemma StopHangs(later: seq<Action>)
    requires Undisturbed(later, 0)
    ensures Shape(Initial(1)) && Shape(Execute(Initial(1), JustBeforeSleep() + [StepStop]))
    ensures Lost(Execute(Execute(Initial(1), JustBeforeSleep() + [StepStop]), later), 0)
  {
    SleepyAfter(7);
    var s := Execute(Initial(1), JustBeforeSleep());
    assert JustBeforeSleep()[..7] == Alone(0, 7);
    var actions := JustBeforeSleep() + [StepStop];
    assert actions[..8] == JustBeforeSleep();
    assert Lost(Execute(Initial(1), actions), 0);
    LostForGood(Execute(Initial(1), actions), 0, later);
  }
}
