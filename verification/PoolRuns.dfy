/** What whole runs of the thread pool do with its tasks: how they are dealt out, in which order they are taken,
    when a worker may go to sleep, and what becomes of each call of `post`. */
module PoolRuns {
  import opened Wrappers
  import opened WorkStealing

  // ----- stealing

  function Alone(w: nat, n: nat): seq<Action> {
    seq(n, _ => StepWorker(w))
  }

  lemma AloneStep(s: State, w: nat, n: nat, s': State)
    requires Shape(s) && Next(s, StepWorker(w)) == Some(s') && Shape(s')
    ensures Execute(s, Alone(w, n + 1)) == Execute(s', Alone(w, n))
  {
    hide WorkerStep;
    var actions := Alone(w, n + 1);
    if n == 0 {
      assert actions[..0] == [] && Execute(s, actions[..0]) == s;
    } else {
      assert actions[..n] == Alone(w, n) && Alone(w, n)[..n - 1] == Alone(w, n - 1);
      AloneStep(s, w, n - 1, s');
    }
  }

  /** A worker that looks for work finds a task in any queue of the pool, and runs one at the latest when it
      gets to a queue that is not empty. */
  lemma {:induction false} FindsWork(s: State, w: nat, k: nat, j: nat) returns (n: nat)
    requires Shape(s) && w < |s.workers| && s.workers[w] == Scan(k) && k <= j < |s.workers|
    requires s.queues[(w + j) % |s.workers|] != []
    ensures 0 < n <= j - k + 1 && w < |Execute(s, Alone(w, n)).workers|
    ensures Execute(s, Alone(w, n)).workers[w].Running?
    decreases j - k
  {
    ShapeStep(s, StepWorker(w));
    var s' := Next(s, StepWorker(w)).value;
    AloneStep(s, w, 0, s');
    n := 1;
    if !s'.workers[w].Running? {
      var n' := FindsWork(s', w, k + 1, j);
      AloneStep(s, w, n', s');
      n := n' + 1;
    }
  }

  /** Whether or not the pool has been stopped, a worker that has finished a task looks for the next one. */
  lemma GoesOnWorking(s: State, w: nat, j: nat) returns (n: nat)
    requires Shape(s) && w < |s.workers| && s.workers[w].Running? && j < |s.workers|
    requires s.queues[(w + j) % |s.workers|] != []
    ensures 0 < n <= j + 2 && w < |Execute(s, Alone(w, n)).workers|
    ensures Execute(s, Alone(w, n)).workers[w].Running?
  {
    hide Execute;
    ShapeStep(s, StepWorker(w));
    var s' := Next(s, StepWorker(w)).value;
    n := FindsWork(s', w, 0, j);
    AloneStep(s, w, n, s');
    n := n + 1;
  }

  // ----- the end of a worker

  /** How many tasks are queued. */
  function Tasks(queues: seq<seq<nat>>): nat {
    if queues == [] then 0 else |queues[0]| + Tasks(queues[1..])
  }

  lemma {:induction false} OneTaskLess(queues: seq<seq<nat>>, q: nat)
    requires q < |queues| && queues[q] != []
    ensures Tasks(queues[q := queues[q][1..]]) < Tasks(queues)
  {
    var less := queues[q := queues[q][1..]];
    if q == 0 {
      assert less[1..] == queues[1..];
    } else {
      assert less[1..] == queues[1..][q - 1 := queues[q][1..]];
      OneTaskLess(queues[1..], q - 1);
    }
  }

  /** How many steps a worker that nobody disturbs is from its exit, once the pool is stopped, if it takes no
      further task. */
  function StepsToExit(s: State, w: nat): nat
    requires Shape(s) && w < |s.workers|
  {
    match s.workers[w]
    case Exited => 0
    case LoopTest => 1
    case LeaveWait => 2
    case PredStop => 3
    case FallAsleep => 0
    case PredIdle => 4
    case PredQueue => 5
    case SetIdle => 6
    case Woken => 6
    case LockIdle => 7
    case Scan(k) => 7 + (|s.workers| - k)
    case Running(_) => 8 + |s.workers|
    case Asleep => 0
  }

  ghost predicate Deserted(s: State, w: nat) {
    && Shape(s) && w < |s.workers| && s.stop && s.workers[w] != Asleep && s.workers[w] != FallAsleep
    && (s.mutexes[w] == Nobody || (s.mutexes[w] == Worker && WorkerHolds(s.workers[w])))
  }

  lemma NearerToExit(s: State, w: nat)
    requires Deserted(s, w) && s.workers[w] != Exited
    ensures Next(s, StepWorker(w)).Some?
    ensures var s' := Next(s, StepWorker(w)).value;
      && Deserted(s', w)
      && if s'.workers[w].Running? then Tasks(s'.queues) < Tasks(s.queues)
         else s'.queues == s.queues && StepsToExit(s', w) < StepsToExit(s, w)
  {
    hide Place, Tasks;
    ShapeStep(s, StepWorker(w));
    if s.workers[w].Scan? {
      ScanTakes(s, w);
    }
  }

  lemma ScanTakes(s: State, w: nat)
    requires Shape(s) && w < |s.workers| && s.workers[w].Scan?
    ensures WorkerStep(s, w).Some?
    ensures var s' := WorkerStep(s, w).value;
      if s'.workers[w].Running? then Tasks(s'.queues) < Tasks(s.queues) else s'.queues == s.queues
  {
    hide Place, Tasks;
    var q := Place(w + s.workers[w].offset, |s.workers|);
    if s.queues[q] != [] {
      OneTaskLess(s.queues, q);
    }
  }

  /** Once the pool is stopped, a worker that is awake ends, from wherever it is, after at most the tasks that are
      queued. */
  lemma {:induction false} EndsAfterStop(s: State, w: nat) returns (n: nat)
    requires Deserted(s, w)
    ensures w < |Execute(s, Alone(w, n)).workers|
    ensures Execute(s, Alone(w, n)).workers[w] == Exited
    decreases Tasks(s.queues), StepsToExit(s, w)
  {
    hide Next;
    if s.workers[w] == Exited {
      n := 0;
    } else {
      NearerToExit(s, w);
      var s' := Next(s, StepWorker(w)).value;
      n := EndsAfterStop(s', w);
      AloneStep(s, w, n, s');
      n := n + 1;
    }
  }

  // ----- a worker with nothing to do

  /** How many steps a worker that nobody disturbs is from sleep, while there is nothing to do. */
  function StepsToSleep(s: State, w: nat): nat
    requires Shape(s) && w < |s.workers|
  {
    var n := |s.workers|;
    match s.workers[w]
    case Asleep => 0
    case FallAsleep => 1
    case PredStop => 2
    case PredIdle => if s.idle[w] then 3 else n + 9
    case PredQueue => if s.idle[w] then 4 else n + 10
    case Woken => if s.idle[w] then 5 else n + 11
    case SetIdle => 5
    case LockIdle => 6
    case Scan(k) => 6 + (n - k)
    case LoopTest => n + 7
    case Running(_) => n + 7
    case LeaveWait => n + 8
    case Exited => 0
  }

  ghost predicate Unneeded(s: State, w: nat) {
    && Shape(s) && w < |s.workers| && !s.stop && s.workers[w] != Exited
    && (s.mutexes[w] == Nobody || (s.mutexes[w] == Worker && WorkerHolds(s.workers[w])))
    && forall q :: 0 <= q < |s.queues| ==> s.queues[q] == []
  }

  lemma NearerToSleep(s: State, w: nat)
    requires Unneeded(s, w) && s.workers[w] != Asleep
    ensures Next(s, StepWorker(w)).Some?
    ensures var s' := Next(s, StepWorker(w)).value;
      Unneeded(s', w) && StepsToSleep(s', w) < StepsToSleep(s, w)
  {
    hide Place;
    ShapeStep(s, StepWorker(w));
  }

  /** A worker goes to sleep, from wherever it is, while the queues are empty and nobody calls. */
  lemma {:induction false} FallsAsleep(s: State, w: nat) returns (n: nat)
    requires Unneeded(s, w)
    ensures n <= StepsToSleep(s, w) && w < |Execute(s, Alone(w, n)).workers|
    ensures Execute(s, Alone(w, n)).workers[w] == Asleep
    decreases StepsToSleep(s, w)
  {
    hide Next;
    if s.workers[w] == Asleep {
      n := 0;
    } else {
      NearerToSleep(s, w);
      var s' := Next(s, StepWorker(w)).value;
      n := FallsAsleep(s', w);
      AloneStep(s, w, n, s');
      n := n + 1;
    }
  }

  /** Workers have ended, and calls of `post` have thrown, only if the pool was stopped. */
  ghost predicate EndsOk(s: State) {
    && (forall w :: 0 <= w < |s.workers| && s.workers[w] == Exited ==> s.stop)
    && (forall p :: p in s.posters && s.posters[p] == Thrown ==> s.stop)
  }

  lemma EndsStep(s: State, a: Action)
    requires Shape(s) && EndsOk(s) && Next(s, a).Some?
    ensures EndsOk(Next(s, a).value)
  {
    hide WorkerStep, PosterStep;
    if a.StepWorker? {
      WorkerEnds(s, a.w);
    } else if a.StepPoster? {
      PosterEnds(s, a.p);
    }
  }

  lemma WorkerEnds(s: State, w: nat)
    requires Shape(s) && w < |s.workers| && WorkerStep(s, w).Some?
    ensures var s' := WorkerStep(s, w).value;
      && s'.workers == s.workers[w := s'.workers[w]] && s'.posters == s.posters && s'.stop == s.stop
      && (s'.workers[w] == Exited ==> s.stop)
  {
    hide Place;
  }

  lemma PosterEnds(s: State, p: nat)
    requires Shape(s) && p in s.posters && PosterStep(s, p).Some?
    ensures var s' := PosterStep(s, p).value;
      && p in s'.posters && s'.posters == s.posters[p := s'.posters[p]] && s'.stop == s.stop
      && |s'.workers| == |s.workers|
      && (forall w :: 0 <= w < |s.workers| ==> s'.workers[w] == s.workers[w] || s'.workers[w] == Woken)
      && (s'.posters[p] == Thrown ==> s.stop)
  {
    hide Place;
  }

  lemma {:induction false} EndsOnlyWhenStopped(n: nat, actions: seq<Action>)
    requires n > 0 && Shape(Initial(n))
    ensures EndsOk(Execute(Initial(n), actions))
    decreases |actions|
  {
    hide Next, EndsOk;
    if actions == [] {
      EndsAtFirst(n);
    } else {
      var front, a := actions[..|actions| - 1], actions[|actions| - 1];
      EndsOnlyWhenStopped(n, front);
      if Next(Execute(Initial(n), front), a).Some? {
        EndsStep(Execute(Initial(n), front), a);
      }
    }
  }

  lemma EndsAtFirst(n: nat)
    ensures EndsOk(Initial(n))
  {}

  // ----- calls of post

  /** `post` can be called whenever, and `stop` sets the flag at once. */
  lemma CallsBegin(s: State, p: nat)
    requires Shape(s)
    ensures s.stopper == NotCalled ==> Next(s, CallStop).Some? && Next(s, CallStop).value.stop
    ensures p !in s.posters
        ==> Next(s, CallPost(p)).Some? && Next(s, CallPost(p)).value.posters == s.posters[p := TestStop]
  {}

  /** A call of `post` that begins when the pool is stopped posts nothing. */
  lemma {:induction false} PostsNothingAfterStop(s: State, actions: seq<Action>, p: nat)
    requires Shape(s) && s.stop && p !in s.posters
    ensures var s' := Execute(s, actions);
      s'.stop && (p in s'.posters ==> s'.posters[p] == TestStop || s'.posters[p] == Thrown)
    decreases |actions|
  {
    hide Place;
    if actions != [] {
      var front, a := actions[..|actions| - 1], actions[|actions| - 1];
      PostsNothingAfterStop(s, front, p);
      if Next(Execute(s, front), a).Some? {
        StaysStopped(Execute(s, front), a, p);
      }
    }
  }

  lemma StaysStopped(s: State, a: Action, p: nat)
    requires Shape(s) && s.stop && (p in s.posters ==> s.posters[p] == TestStop || s.posters[p] == Thrown)
    requires Next(s, a).Some?
    ensures var s' := Next(s, a).value;
      s'.stop && (p in s'.posters ==> s'.posters[p] == TestStop || s'.posters[p] == Thrown)
  {
    hide Place;
  }

  /** The worker a step picks. */
  function Picked(s: State, a: Action, s': State): seq<nat> {
    if a.StepPoster? && a.p in s.posters && s.posters[a.p] == Pick && a.p in s'.posters && s'.posters[a.p].PushTask?
    then [s'.posters[a.p].w]
    else []
  }

  function AllPicked(s: State, actions: seq<Action>): seq<nat>
    requires Shape(s)
  {
    if actions == [] then []
    else
      var front, a := actions[..|actions| - 1], actions[|actions| - 1];
      AllPicked(s, front) + Picked(Execute(s, front), a, Execute(s, actions))
  }

  /** Tasks are dealt out to the workers in turn. */
  lemma {:induction false} DealtInTurn(n: nat, actions: seq<Action>)
    requires n > 0 && Shape(Initial(n))
    ensures var picks := AllPicked(Initial(n), actions);
      |picks| == Execute(Initial(n), actions).index && forall i :: 0 <= i < |picks| ==> picks[i] == i % n
    decreases |actions|
  {
    hide Next, Picked;
    if actions != [] {
      var front, a := actions[..|actions| - 1], actions[|actions| - 1];
      DealtInTurn(n, front);
      SamePool(Initial(n), front);
      PickStep(Execute(Initial(n), front), a);
    }
  }

  lemma PickStep(s: State, a: Action)
    requires Shape(s)
    ensures Next(s, a).None? ==> Picked(s, a, s) == []
    ensures Next(s, a).Some? ==>
      var s' := Next(s, a).value;
      var picks := Picked(s, a, s');
      if s'.index == s.index then picks == [] else picks == [s.index % |s.workers|] && s'.index == s.index + 1
  {
    hide WorkerStep;
    WorkerIndex(s, a);
  }

  lemma WorkerIndex(s: State, a: Action)
    requires Shape(s)
    ensures a.StepWorker? && Next(s, a).Some? ==> Next(s, a).value.index == s.index
  {
    hide Place;
  }

  /** How many steps a call of `post` has before it, at most. */
  function StepsToReturn(pc: PosterPC): nat {
    match pc
    case TestStop => 8
    case Pick => 7
    case PushTask(_) => 6
    case TestIdle(_) => 5
    case LockMutex(_) => 4
    case ClearIdle(_) => 3
    case Notify(_) => 2
    case Unlock(_) => 1
    case Returned => 0
    case Thrown => 0
  }

  /** A call of `post` comes nearer to its return with each of its steps, and it is able to step unless it waits
      for a mutex whose holder is able to step. */
  lemma PostGoesOn(s: State, p: nat)
    requires Inv(s) && p in s.posters && s.posters[p] != Returned && s.posters[p] != Thrown
    ensures PosterStep(s, p).Some? ==>
      p in PosterStep(s, p).value.posters
      && StepsToReturn(PosterStep(s, p).value.posters[p]) < StepsToReturn(s.posters[p])
      && (s.posters[p].TestIdle? && !s.idle[s.posters[p].w] ==> PosterStep(s, p).value.posters[p] == Returned)
    ensures PosterStep(s, p).None? ==>
      && s.posters[p].LockMutex?
      && var w := s.posters[p].w;
         && w < |s.workers| && s.mutexes[w] != Nobody
         && (s.mutexes[w] == Worker ==> WorkerStep(s, w).Some?)
         && (s.mutexes[w].Poster? ==> s.mutexes[w].p in s.posters && PosterStep(s, s.mutexes[w].p).Some?)
  {
    hide Conserved, WakeOk, Place;
    if s.posters[p].LockMutex? {
      assert MutexOk(s, s.posters[p].w);
    }
  }

  /** A worker that is awake is able to step unless it waits for its mutex, whose holder is able to step. */
  lemma WorkerGoesOn(s: State, w: nat)
    requires Inv(s) && w < |s.workers| && s.workers[w] != Asleep && s.workers[w] != Exited
    ensures WorkerStep(s, w).None? ==>
      && (s.workers[w] == LockIdle || s.workers[w] == Woken)
      && s.mutexes[w].Poster? && s.mutexes[w].p in s.posters && PosterStep(s, s.mutexes[w].p).Some?
  {
    hide Conserved, WakeOk, Place;
    assert MutexOk(s, w);
  }

  // ----- a worker that gives up

  /** Worker `w` is past the `k`-th look of its round through the queues and has found nothing since. */
  predicate PastLook(s: State, w: nat, k: nat) {
    w < |s.workers| && match s.workers[w]
    case Scan(k') => k < k'
    case LockIdle => true
    case _ => false
  }

  /** The `j`-th action was the `k`-th look of worker `w`'s present round, and the queue was empty then. */
  ghost predicate LookedAt(s: State, actions: seq<Action>, w: nat, k: nat, j: nat)
    requires Shape(s)
  {
    && j < |actions| && actions[j] == StepWorker(w)
    && (var before := Execute(s, actions[..j]);
        w < |before.workers| && before.workers[w] == Scan(k) && before.queues[(w + k) % |before.workers|] == [])
    && forall i :: j < i <= |actions| ==> PastLook(Execute(s, actions[..i]), w, k)
  }

  ghost predicate FoundEmpty(s: State, actions: seq<Action>, w: nat, k: nat)
    requires Shape(s)
  {
    exists j: nat :: LookedAt(s, actions, w, k, j)
  }

  lemma StillFoundEmpty(s: State, actions: seq<Action>, a: Action, w: nat, k: nat)
    requires Shape(s) && FoundEmpty(s, actions, w, k) && PastLook(Execute(s, actions + [a]), w, k)
    ensures FoundEmpty(s, actions + [a], w, k)
  {
    hide Execute, PastLook;
    var j: nat :| LookedAt(s, actions, w, k, j);
    var longer := actions + [a];
    assert longer[..j] == actions[..j];
    forall i | j < i <= |longer|
      ensures PastLook(Execute(s, longer[..i]), w, k)
    {
      if i <= |actions| {
        assert longer[..i] == actions[..i];
      } else {
        assert longer[..i] == longer;
      }
    }
    assert LookedAt(s, longer, w, k, j);
  }

  lemma LookFailed(s: State, w: nat, k: nat)
    requires Shape(s) && w < |s.workers| && s.workers[w] == Scan(k)
    ensures Next(s, StepWorker(w)).Some?
    ensures PastLook(Next(s, StepWorker(w)).value, w, k) ==> s.queues[(w + k) % |s.workers|] == []
  {}

  lemma ExecuteLast(s: State, actions: seq<Action>, a: Action)
    requires Shape(s) && Next(Execute(s, actions), a).Some?
    ensures Execute(s, actions + [a]) == Next(Execute(s, actions), a).value
  {
    hide Next;
    assert (actions + [a])[..|actions|] == actions;
  }

  lemma JustFoundEmpty(s: State, actions: seq<Action>, w: nat, k: nat)
    requires Shape(s) && w < |Execute(s, actions).workers| && Execute(s, actions).workers[w] == Scan(k)
    requires PastLook(Execute(s, actions + [StepWorker(w)]), w, k)
    ensures FoundEmpty(s, actions + [StepWorker(w)], w, k)
  {
    hide Execute, PastLook, Next;
    LookFailed(Execute(s, actions), w, k);
    ExecuteLast(s, actions, StepWorker(w));
    var longer := actions + [StepWorker(w)];
    var j := |actions|;
    assert longer[..j] == actions && longer[..j + 1] == longer;
    assert LookedAt(s, longer, w, k, j);
  }

  /** How many looks of its present round worker `w` has behind it. */
  function Looks(s: State, w: nat): nat {
    if w >= |s.workers| then 0
    else match s.workers[w]
    case Scan(k) => k
    case LockIdle => |s.workers|
    case _ => 0
  }

  lemma OwnLook(s: State, a: Action, w: nat)
    requires Shape(s) && Next(s, a).Some? && w < |s.workers|
    ensures var s' := Next(s, a).value;
      && |s'.workers| == |s.workers|
      && (Looks(s', w) > 0 ==>
            || Looks(s', w) == Looks(s, w)
            || (a == StepWorker(w) && s.workers[w] == Scan(Looks(s', w) - 1)))
  {
    hide Place;
    if a.StepWorker? && a.w != w {
      WorkerElsewhere(s, a.w, w);
    }
  }

  /** A worker goes to the idle part of its loop only after it has looked at every queue of the pool, one after
      the other, and found each empty when it looked at it; and it has done nothing else meanwhile. */
  lemma {:induction false} GivesUpOnlyWhenEmpty(s: State, actions: seq<Action>, w: nat, k: nat)
    requires Shape(s) && w < |s.workers| && Looks(s, w) == 0
    requires k < Looks(Execute(s, actions), w)
    ensures FoundEmpty(s, actions, w, k)
    decreases |actions|
  {
    hide FoundEmpty;
    if actions != [] {
      var front, a := actions[..|actions| - 1], actions[|actions| - 1];
      assert actions == front + [a];
      var before := Execute(s, front);
      SamePool(s, front);
      if Next(before, a).Some? {
        OwnLook(before, a, w);
      }
      if k < Looks(before, w) {
        GivesUpOnlyWhenEmpty(s, front, w, k);
        StillFoundEmpty(s, front, a, w, k);
      } else {
        JustFoundEmpty(s, front, w, k);
      }
    }
  }

  lemma {:induction false} SamePool(s: State, actions: seq<Action>)
    requires Shape(s)
    ensures |Execute(s, actions).workers| == |s.workers|
    decreases |actions|
  {
    if actions != [] {
      var front, a := actions[..|actions| - 1], actions[|actions| - 1];
      SamePool(s, front);
      if Next(Execute(s, front), a).Some? {
        OwnLook(Execute(s, front), a, 0);
      }
    }
  }

  // ----- the order of the tasks

  /** What a step adds to queue `w`. */
  function Pushed(s: State, a: Action, w: nat): seq<nat> {
    if a.StepPoster? && a.p in s.posters && s.posters[a.p] == PushTask(w) then [a.p] else []
  }

  /** The task a step takes from queue `w`, which is the one its worker looks at, to be run. */
  function Taken(s: State, a: Action, s': State, w: nat): seq<nat> {
    if a.StepWorker? && a.w < |s.workers| == |s'.workers| && s'.workers[a.w].Running? && s.workers[a.w].Scan?
       && (a.w + s.workers[a.w].offset) % |s.workers| == w
    then [s'.workers[a.w].task]
    else []
  }

  function PushedTo(s: State, actions: seq<Action>, w: nat): seq<nat>
    requires Shape(s)
  {
    if actions == [] then []
    else
      var front, a := actions[..|actions| - 1], actions[|actions| - 1];
      PushedTo(s, front, w) + Pushed(Execute(s, front), a, w)
  }

  function TakenFrom(s: State, actions: seq<Action>, w: nat): seq<nat>
    requires Shape(s)
  {
    if actions == [] then []
    else
      var front, a := actions[..|actions| - 1], actions[|actions| - 1];
      TakenFrom(s, front, w) + Taken(Execute(s, front), a, Execute(s, actions), w)
  }

  lemma QueueStep(s: State, a: Action, w: nat)
    requires Shape(s) && w < |s.queues| && Next(s, a).Some?
    ensures var s' := Next(s, a).value;
      |s'.queues| == |s.queues| && s.queues[w] + Pushed(s, a, w) == Taken(s, a, s', w) + s'.queues[w]
  {
    hide Place;
    if a.StepWorker? && s.workers[a.w].Scan? {
      WorkerLook(s, a.w, w);
    }
  }

  lemma WorkerLook(s: State, u: nat, w: nat)
    requires Shape(s) && u < |s.workers| && s.workers[u].Scan? && w < |s.queues|
    ensures var s' := WorkerStep(s, u).value;
      |s'.queues| == |s.queues| && s.queues[w] == Taken(s, StepWorker(u), s', w) + s'.queues[w]
  {}

  /** Tasks leave each queue, whoever takes them, in the order in which they were pushed onto it. */
  lemma {:induction false} QueuesAreFifo(s: State, actions: seq<Action>, w: nat)
    requires Shape(s) && w < |s.queues| && s.queues[w] == []
    ensures var s' := Execute(s, actions);
      w < |s'.queues| && PushedTo(s, actions, w) == TakenFrom(s, actions, w) + s'.queues[w]
    decreases |actions|
  {
    hide Next, Pushed, Taken;
    if actions != [] {
      var front, a := actions[..|actions| - 1], actions[|actions| - 1];
      QueuesAreFifo(s, front, w);
      var before := Execute(s, front);
      if Next(before, a).Some? {
        QueueStep(before, a, w);
      } else {
        NothingMoves(before, a, w);
      }
      var pushed, taken := PushedTo(s, front, w), TakenFrom(s, front, w);
      assert pushed + Pushed(before, a, w) == taken + (before.queues[w] + Pushed(before, a, w));
      var now := Execute(s, actions);
      assert taken + (Taken(before, a, now, w) + now.queues[w]) == taken + Taken(before, a, now, w) + now.queues[w];
    }
  }

  lemma NothingMoves(s: State, a: Action, w: nat)
    requires Shape(s) && Next(s, a).None?
    ensures Pushed(s, a, w) == [] && Taken(s, a, s, w) == []
  {
    hide Place;
  }
}