/** The worker pool of ThreadPool.h and ThreadPool.cpp: posters, workers that steal, and the idle flag,
    mutex and condition variable between them. One step is one access to shared state. Queue operations
    are atomic here; `TwoLockQueue` shows that they may be taken to be. */
module WorkStealing {
  import opened Wrappers

  /** Where a worker is in the loop of `start`; "m" marks the points at which it holds its idle mutex. */
  datatype WorkerPC =
    | LoopTest
    | Scan(offset: nat)    // try_pop of the queue `offset` places after its own
    | Running(task: nat)
    | LockIdle
    | SetIdle              // m: is_idle = true
    | PredQueue            // m: wait predicate, `!task_queue.empty()`
    | PredIdle             // m: wait predicate, `!is_idle`
    | PredStop             // m: wait predicate, `_stop`
    | FallAsleep           // m: release the mutex and sleep, in one
    | Asleep
    | Woken                // reacquires the mutex
    | LeaveWait            // m: unlock
    | Exited

  /** Where a call of `post` is; the worker it posts to is fixed once picked. */
  datatype PosterPC =
    | TestStop
    | Pick
    | PushTask(w: nat)
    | TestIdle(w: nat)
    | LockMutex(w: nat)
    | ClearIdle(w: nat)    // m
    | Notify(w: nat)       // m
    | Unlock(w: nat)       // m
    | Returned
    | Thrown

  /** Where the call of `stop` is: it notifies and joins one worker after the other. */
  datatype StopPC = NotCalled | NotifyFor(w: nat) | Join(w: nat) | AllJoined

  datatype Holder = Nobody | Worker | Poster(p: nat)

  /** Poster `p` posts task `p`. */
  datatype State = State(
    queues: seq<seq<nat>>,
    idle: seq<bool>,
    mutexes: seq<Holder>,
    workers: seq<WorkerPC>,
    posters: map<nat, PosterPC>,
    index: nat,
    stop: bool,
    stopper: StopPC,
    finished: multiset<nat>)

  datatype Action = CallPost(p: nat) | StepPoster(p: nat) | StepWorker(w: nat) | SpuriousWake(w: nat)
                  | CallStop | StepStop

  /** `i % n`, the place of the i-th worker counted round the pool. */
  function Place(i: nat, n: nat): (w: nat)
    requires n > 0
    ensures w < n
  {
    i % n
  }

  function Initial(n: nat): State {
    State(seq(n, _ => []), seq(n, _ => true), seq(n, _ => Nobody), seq(n, _ => LoopTest), map[], 0, false, NotCalled,
          multiset{})
  }

  predicate Shape(s: State) {
    && |s.queues| == |s.idle| == |s.mutexes| == |s.workers| > 0
    && (forall p :: p in s.posters && TargetOf(s.posters[p]).Some? ==> TargetOf(s.posters[p]).value < |s.workers|)
    && (forall w :: 0 <= w < |s.workers| && s.workers[w].Scan? ==> s.workers[w].offset < |s.workers|)
  }

  function TargetOf(pc: PosterPC): Option<nat> {
    match pc
    case TestStop => None
    case Pick => None
    case Returned => None
    case Thrown => None
    case _ => Some(pc.w)
  }

  // ----- steps; None when the step has to wait

  function Next(s: State, a: Action): Option<State>
    requires Shape(s)
  {
    match a
    case CallPost(p) => if p in s.posters then None else Some(s.(posters := s.posters[p := TestStop]))
    case StepPoster(p) => if p in s.posters then PosterStep(s, p) else None
    case StepWorker(w) => if w < |s.workers| then WorkerStep(s, w) else None
    case SpuriousWake(w) => if w < |s.workers| && s.workers[w] == Asleep then Some(GoTo(s, w, Woken)) else None
    case CallStop => if s.stopper == NotCalled then Some(s.(stop := true, stopper := NotifyFor(0))) else None
    case StepStop => StopStep(s)
  }

  function GoTo(s: State, w: nat, pc: WorkerPC): State
    requires w < |s.workers|
  {
    s.(workers := s.workers[w := pc])
  }

  function Post(s: State, p: nat, pc: PosterPC): State {
    s.(posters := s.posters[p := pc])
  }

  /** Notifying takes no mutex; joining waits for the worker's end. */
  function StopStep(s: State): Option<State>
    requires Shape(s)
  {
    match s.stopper
    case NotCalled => None
    case NotifyFor(w) =>
      if w >= |s.workers| then Some(s.(stopper := AllJoined))
      else Some((if s.workers[w] == Asleep then GoTo(s, w, Woken) else s).(stopper := Join(w)))
    case Join(w) =>
      if w < |s.workers| && s.workers[w] != Exited then None else Some(s.(stopper := NotifyFor(w + 1)))
    case AllJoined => None
  }

  function PosterStep(s: State, p: nat): Option<State>
    requires Shape(s) && p in s.posters
  {
    match s.posters[p]
    case TestStop => Some(Post(s, p, if s.stop then Thrown else Pick))
    case Pick => Some(Post(s.(index := s.index + 1), p, PushTask(Place(s.index, |s.workers|))))
    case PushTask(w) => Some(Post(s.(queues := s.queues[w := s.queues[w] + [p]]), p, TestIdle(w)))
    case TestIdle(w) => Some(Post(s, p, if s.idle[w] then LockMutex(w) else Returned))
    case LockMutex(w) =>
      if s.mutexes[w] != Nobody then None else Some(Post(s.(mutexes := s.mutexes[w := Poster(p)]), p, ClearIdle(w)))
    case ClearIdle(w) => Some(Post(s.(idle := s.idle[w := false]), p, Notify(w)))
    case Notify(w) => Some(Post(if s.workers[w] == Asleep then GoTo(s, w, Woken) else s, p, Unlock(w)))
    case Unlock(w) => Some(Post(s.(mutexes := s.mutexes[w := Nobody]), p, Returned))
    case Returned => None
    case Thrown => None
  }

  function WorkerStep(s: State, w: nat): Option<State>
    requires Shape(s) && w < |s.workers|
  {
    match s.workers[w]
    case LoopTest => Some(GoTo(s, w, if s.stop then Exited else Scan(0)))
    case Scan(k) =>
      var q := Place(w + k, |s.workers|);
      if s.queues[q] != [] then
        Some(GoTo(s.(queues := s.queues[q := s.queues[q][1..]]), w, Running(s.queues[q][0])))
      else
        Some(GoTo(s, w, if k + 1 < |s.workers| then Scan(k + 1) else LockIdle))
    case Running(task) => Some(GoTo(s.(finished := s.finished + multiset{task}), w, Scan(0)))
    case LockIdle =>
      if s.mutexes[w] != Nobody then None else Some(GoTo(s.(mutexes := s.mutexes[w := Worker]), w, SetIdle))
    case SetIdle => Some(GoTo(s.(idle := s.idle[w := true]), w, PredQueue))
    case PredQueue => Some(GoTo(s, w, if s.queues[w] != [] then LeaveWait else PredIdle))
    case PredIdle => Some(GoTo(s, w, if !s.idle[w] then LeaveWait else PredStop))
    case PredStop => Some(GoTo(s, w, if s.stop then LeaveWait else FallAsleep))
    case FallAsleep => Some(GoTo(s.(mutexes := s.mutexes[w := Nobody]), w, Asleep))
    case Asleep => None
    case Woken =>
      if s.mutexes[w] != Nobody then None else Some(GoTo(s.(mutexes := s.mutexes[w := Worker]), w, PredQueue))
    case LeaveWait => Some(GoTo(s.(mutexes := s.mutexes[w := Nobody]), w, LoopTest))
    case Exited => None
  }

  // ----- the wake-up protocol

  predicate WorkerHolds(pc: WorkerPC) {
    pc == SetIdle || pc == PredQueue || pc == PredIdle || pc == PredStop || pc == FallAsleep || pc == LeaveWait
  }

  predicate PosterHolds(pc: PosterPC, w: nat) {
    pc == ClearIdle(w) || pc == Notify(w) || pc == Unlock(w)
  }

  predicate MutexOk(s: State, w: nat)
    requires Shape(s) && w < |s.workers|
  {
    && (WorkerHolds(s.workers[w]) <==> s.mutexes[w] == Worker)
    && (forall p :: p in s.posters ==> (PosterHolds(s.posters[p], w) <==> s.mutexes[w] == Poster(p)))
    && (s.mutexes[w].Poster? ==> s.mutexes[w].p in s.posters)
  }

  /** A call of `post` that will go on to notify worker `w`. */
  predicate WillNotify(s: State, p: nat, w: nat)
    requires Shape(s) && w < |s.workers|
  {
    && p in s.posters
    && (|| s.posters[p] == LockMutex(w) || s.posters[p] == ClearIdle(w) || s.posters[p] == Notify(w)
        || (s.posters[p] == TestIdle(w) && s.idle[w]))
  }

  ghost predicate Committed(s: State, w: nat)
    requires Shape(s) && w < |s.workers|
  {
    exists p :: WillNotify(s, p, w)
  }

  ghost predicate Notifying(s: State, w: nat)
    requires Shape(s) && w < |s.workers|
  {
    exists p :: p in s.posters && s.posters[p] == Notify(w)
  }

  ghost predicate WakeOk(s: State, w: nat)
    requires Shape(s) && w < |s.workers|
  {
    var pc := s.workers[w];
    && (pc == PredIdle && s.idle[w] && s.queues[w] != [] ==> Committed(s, w))
    && (pc == PredStop || pc == FallAsleep ==> s.idle[w] && (s.queues[w] != [] ==> Committed(s, w)))
    && (pc == Asleep ==> (s.queues[w] != [] ==> Committed(s, w)) && (!s.idle[w] ==> Notifying(s, w)))
  }

  // ----- where the tasks are

  /** How often a task occurs in the queues. */
  function Queued(queues: seq<seq<nat>>, task: nat): nat {
    if queues == [] then 0 else multiset(queues[0])[task] + Queued(queues[1..], task)
  }

  function RunningAt(pc: WorkerPC, task: nat): nat {
    if pc == Running(task) then 1 else 0
  }

  /** How many workers are running a task. */
  function BeingRun(workers: seq<WorkerPC>, task: nat): nat {
    if workers == [] then 0 else RunningAt(workers[0], task) + BeingRun(workers[1..], task)
  }

  predicate HasPushed(pc: PosterPC) {
    pc != TestStop && pc != Pick && pc != Thrown && !pc.PushTask?
  }

  predicate Posted(s: State, task: nat) {
    task in s.posters && HasPushed(s.posters[task])
  }

  /** A posted task is in exactly one place: in one queue once, run by one worker, or finished once. A
      task not posted is nowhere. */
  predicate ConservedAt(s: State, task: nat) {
    Queued(s.queues, task) + BeingRun(s.workers, task) + s.finished[task] == if Posted(s, task) then 1 else 0
  }

  ghost predicate Conserved(s: State) {
    forall task :: ConservedAt(s, task)
  }

  ghost predicate Inv(s: State) {
    Shape(s) && Conserved(s) && forall w :: 0 <= w < |s.workers| ==> MutexOk(s, w) && WakeOk(s, w)
  }

  // ----- one step keeps the invariant

  lemma {:induction false} QueuedUpdate(queues: seq<seq<nat>>, w: nat, q: seq<nat>, task: nat)
    requires w < |queues|
    ensures Queued(queues[w := q], task) + multiset(queues[w])[task] == Queued(queues, task) + multiset(q)[task]
  {
    var queues' := queues[w := q];
    if w == 0 {
      assert queues'[1..] == queues[1..];
    } else {
      assert queues'[1..] == queues[1..][w - 1 := q];
      QueuedUpdate(queues[1..], w - 1, q, task);
    }
  }

  lemma {:induction false} RunUpdate(workers: seq<WorkerPC>, w: nat, pc: WorkerPC, task: nat)
    requires w < |workers|
    ensures BeingRun(workers[w := pc], task) + RunningAt(workers[w], task)
            == BeingRun(workers, task) + RunningAt(pc, task)
  {
    var workers' := workers[w := pc];
    if w == 0 {
      assert workers'[1..] == workers[1..];
    } else {
      assert workers'[1..] == workers[1..][w - 1 := pc];
      RunUpdate(workers[1..], w - 1, pc, task);
    }
  }

  lemma ShapeStep(s: State, a: Action)
    requires Shape(s) && Next(s, a).Some?
    ensures Shape(Next(s, a).value)
  {
    hide Place;
    if a.StepWorker? { WorkerShape(s, a.w); }
    if a.StepPoster? { PosterShape(s, a.p); }
  }

  lemma WorkerShape(s: State, w: nat)
    requires Shape(s) && w < |s.workers| && WorkerStep(s, w).Some?
    ensures Shape(WorkerStep(s, w).value)
  {
    hide Place;
  }

  lemma PosterShape(s: State, p: nat)
    requires Shape(s) && p in s.posters && PosterStep(s, p).Some?
    ensures Shape(PosterStep(s, p).value)
  {
    hide Place;
  }

  /** A step of worker `u` leaves another worker alone, except that it may steal from its queue. */
  lemma WorkerElsewhere(s: State, u: nat, w: nat)
    requires Shape(s) && u < |s.workers| && w < |s.workers| && u != w && WorkerStep(s, u).Some?
    ensures var s' := WorkerStep(s, u).value;
      && s'.posters == s.posters && s'.workers[w] == s.workers[w]
      && s'.mutexes[w] == s.mutexes[w] && s'.idle[w] == s.idle[w]
      && (s'.queues[w] != [] ==> s.queues[w] != [])
  {
    hide Place;
  }

  lemma WorkerMutex(s: State, u: nat, w: nat)
    requires Shape(s) && w < |s.workers| && MutexOk(s, w)
    requires u < |s.workers| && WorkerStep(s, u).Some? && Shape(WorkerStep(s, u).value)
    ensures MutexOk(WorkerStep(s, u).value, w)
  {
    if u == w {
      OwnMutex(s, w);
    } else {
      hide WorkerStep;
      WorkerElsewhere(s, u, w);
    }
  }

  lemma OwnMutex(s: State, w: nat)
    requires Shape(s) && w < |s.workers| && MutexOk(s, w)
    requires WorkerStep(s, w).Some? && Shape(WorkerStep(s, w).value)
    ensures MutexOk(WorkerStep(s, w).value, w)
  {
    hide Place;
  }

  /** A step of call `p` leaves the other calls alone, changes the mutex only by taking or releasing it,
      and changes a worker only by waking it. */
  lemma PosterFrame(s: State, p: nat, w: nat)
    requires Shape(s) && w < |s.workers| && p in s.posters && PosterStep(s, p).Some?
    ensures var s' := PosterStep(s, p).value;
      && p in s'.posters && s'.posters == s.posters[p := s'.posters[p]]
      && (s'.workers[w] == s.workers[w] || (s.workers[w] == Asleep && s'.workers[w] == Woken))
      && (PosterHolds(s'.posters[p], w) <==>
            s.posters[p] == LockMutex(w) || s.posters[p] == ClearIdle(w) || s.posters[p] == Notify(w))
      && s'.mutexes[w] == (if s.posters[p] == LockMutex(w) then Poster(p)
                           else if s.posters[p] == Unlock(w) then Nobody else s.mutexes[w])
      && (s.posters[p] == LockMutex(w) ==> s.mutexes[w] == Nobody)
  {
    hide Place;
  }

  lemma PosterMutex(s: State, p: nat, w: nat)
    requires Shape(s) && w < |s.workers| && MutexOk(s, w)
    requires p in s.posters && PosterStep(s, p).Some? && Shape(PosterStep(s, p).value)
    ensures MutexOk(PosterStep(s, p).value, w)
  {
    PosterFrame(s, p, w);
    hide PosterStep;
  }

  /** What a worker's step does to the tasks: it takes the first of a queue, finishes the one it runs, or
      leaves them alone. */
  lemma WorkerTasks(s: State, w: nat) returns (q: nat)
    requires Shape(s) && w < |s.workers| && WorkerStep(s, w).Some?
    ensures var s' := WorkerStep(s, w).value;
      && s'.posters == s.posters && s'.workers == s.workers[w := s'.workers[w]] && q < |s.queues|
      && (if s'.workers[w].Running? then
            && !s.workers[w].Running? && s'.finished == s.finished
            && s.queues[q] != [] && s.queues[q] == [s'.workers[w].task] + s.queues[q][1..]
            && s'.queues == s.queues[q := s.queues[q][1..]]
          else if s.workers[w].Running? then
            s'.queues == s.queues && s'.finished == s.finished + multiset{s.workers[w].task}
          else
            s'.queues == s.queues && s'.finished == s.finished)
  {
    hide Place;
    q := if s.workers[w].Scan? then Place(w + s.workers[w].offset, |s.workers|) else w;
  }

  lemma WorkerConserves(s: State, w: nat, task: nat)
    requires Shape(s) && ConservedAt(s, task) && w < |s.workers| && WorkerStep(s, w).Some?
    ensures ConservedAt(WorkerStep(s, w).value, task)
  {
    var q := WorkerTasks(s, w);
    hide WorkerStep, Queued, BeingRun, HasPushed;
    var s' := WorkerStep(s, w).value;
    RunUpdate(s.workers, w, s'.workers[w], task);
    if s'.workers[w].Running? {
      QueuedUpdate(s.queues, q, s.queues[q][1..], task);
    }
  }

  lemma PosterConserves(s: State, p: nat, task: nat)
    requires Shape(s) && ConservedAt(s, task) && p in s.posters && PosterStep(s, p).Some?
    ensures ConservedAt(PosterStep(s, p).value, task)
  {
    hide Place, Queued, BeingRun;
    match s.posters[p]
    case PushTask(w) => QueuedUpdate(s.queues, w, s.queues[w] + [p], task);
    case Notify(w) => RunUpdate(s.workers, w, Woken, task);
    case _ =>
  }

  lemma WorkerKeepsWake(s: State, u: nat, w: nat)
    requires Shape(s) && w < |s.workers| && MutexOk(s, w) && WakeOk(s, w)
    requires u < |s.workers| && WorkerStep(s, u).Some? && Shape(WorkerStep(s, u).value)
    ensures WakeOk(WorkerStep(s, u).value, w)
  {
    if u == w {
      OwnWake(s, w);
    } else {
      hide WorkerStep;
      WorkerElsewhere(s, u, w);
      var s' := WorkerStep(s, u).value;
      if Committed(s, w) {
        var p :| WillNotify(s, p, w);
        assert WillNotify(s', p, w);
      }
    }
  }

  lemma OwnWake(s: State, w: nat)
    requires Shape(s) && w < |s.workers| && MutexOk(s, w) && WakeOk(s, w)
    requires WorkerStep(s, w).Some? && Shape(WorkerStep(s, w).value)
    ensures WakeOk(WorkerStep(s, w).value, w)
  {
    hide Place;
    var s' := WorkerStep(s, w).value;
    if Committed(s, w) && s'.idle[w] == s.idle[w] {
      var p :| WillNotify(s, p, w);
      assert WillNotify(s', p, w);
    }
  }

  /** A promise to notify outlasts the steps of other calls of `post`, unless one of them takes it over. */
  lemma PromiseKept(s: State, p: nat, q: nat, w: nat)
    requires Shape(s) && w < |s.workers| && p in s.posters && PosterStep(s, p).Some? && Shape(PosterStep(s, p).value)
    requires WillNotify(s, q, w)
    ensures var s' := PosterStep(s, p).value;
      || WillNotify(s', q, w) || (s.posters[p] == ClearIdle(w) && WillNotify(s', p, w))
      || (p == q && s.posters[p] == Notify(w))
  {
    hide Place;
  }

  lemma PosterKeepsWake(s: State, p: nat, w: nat)
    requires Shape(s) && w < |s.workers| && MutexOk(s, w) && WakeOk(s, w)
    requires p in s.posters && PosterStep(s, p).Some? && Shape(PosterStep(s, p).value)
    ensures WakeOk(PosterStep(s, p).value, w)
  {
    PosterFrame(s, p, w);
    PosterSignals(s, p, w);
    var s' := PosterStep(s, p).value;
    if Committed(s, w) {
      var q :| WillNotify(s, q, w);
      PromiseKept(s, p, q, w);
    }
    if s.posters[p] != Notify(w) {
      NotifierKept(s, p, w);
    }
    hide PosterStep;
    if s.posters[p] == PushTask(w) && s'.idle[w] {
      assert WillNotify(s', p, w);
    } else if s.posters[p] == ClearIdle(w) {
      assert s'.posters[p] == Notify(w);
    }
  }

  /** What a step of call `p` does to the queue and idle flag of worker `w`, and where it goes next. */
  lemma PosterSignals(s: State, p: nat, w: nat)
    requires Shape(s) && w < |s.workers| && p in s.posters && PosterStep(s, p).Some?
    ensures var s' := PosterStep(s, p).value;
      && s'.idle[w] == (s.posters[p] != ClearIdle(w) && s.idle[w])
      && (s.posters[p] != PushTask(w) ==> s'.queues[w] == s.queues[w])
      && (s.posters[p] == PushTask(w) ==> s'.posters[p] == TestIdle(w))
      && (s.posters[p] == ClearIdle(w) ==> s'.posters[p] == Notify(w))
      && (s.posters[p] == Notify(w) ==> s'.workers[w] != Asleep)
  {
    hide Place;
  }

  lemma NotifierKept(s: State, p: nat, w: nat)
    requires Shape(s) && w < |s.workers| && p in s.posters && PosterStep(s, p).Some? && Shape(PosterStep(s, p).value)
    requires s.posters[p] != Notify(w)
    ensures Notifying(s, w) ==> Notifying(PosterStep(s, p).value, w) && Committed(PosterStep(s, p).value, w)
  {
    hide Place;
    var s' := PosterStep(s, p).value;
    if Notifying(s, w) {
      var q :| q in s.posters && s.posters[q] == Notify(w);
      assert s'.posters[q] == Notify(w);
      assert WillNotify(s', q, w);
    }
  }

  /** A new call, the call of stop, and a spurious wake-up: no queue, flag or mutex changes. */
  predicate Minor(s: State, a: Action, s': State)
    requires Shape(s)
  {
    && Next(s, a) == Some(s') && (a.CallPost? || a.CallStop? || a.StepStop? || a.SpuriousWake?)
  }

  lemma MinorFrame(s: State, a: Action, s': State)
    requires Shape(s) && Minor(s, a, s')
    ensures s'.queues == s.queues && s'.idle == s.idle && s'.mutexes == s.mutexes && s'.finished == s.finished
    ensures |s'.workers| == |s.workers|
    ensures forall w :: 0 <= w < |s.workers| ==>
              s'.workers[w] == s.workers[w] || (s.workers[w] == Asleep && s'.workers[w] == Woken)
    ensures forall q :: q in s.posters ==> q in s'.posters && s'.posters[q] == s.posters[q]
    ensures forall q :: q in s'.posters && q !in s.posters ==> s'.posters[q] == TestStop
  {}

  lemma MinorWorker(s: State, a: Action, s': State, w: nat)
    requires Shape(s) && Shape(s') && Minor(s, a, s') && w < |s.workers| && MutexOk(s, w) && WakeOk(s, w)
    ensures MutexOk(s', w) && WakeOk(s', w)
  {
    MinorFrame(s, a, s');
    hide Minor;
    if Committed(s, w) {
      var q :| WillNotify(s, q, w);
      assert WillNotify(s', q, w);
    }
    if Notifying(s, w) {
      var q :| q in s.posters && s.posters[q] == Notify(w);
      assert s'.posters[q] == Notify(w);
    }
  }

  lemma MinorTask(s: State, a: Action, s': State, task: nat)
    requires Shape(s) && Minor(s, a, s') && ConservedAt(s, task)
    ensures ConservedAt(s', task)
  {
    hide BeingRun, Queued;
    MinorFrame(s, a, s');
    if a.SpuriousWake? {
      RunUpdate(s.workers, a.w, Woken, task);
    } else if a.StepStop? && s.stopper.NotifyFor? && s.stopper.w < |s.workers| {
      RunUpdate(s.workers, s.stopper.w, Woken, task);
    }
  }

  lemma StepKeepsInv(s: State, a: Action)
    requires Inv(s) && Next(s, a).Some?
    ensures Inv(Next(s, a).value)
  {
    hide ConservedAt, MutexOk, WakeOk, Place;
    ShapeStep(s, a);
    var s' := Next(s, a).value;
    match a
    case StepWorker(u) =>
      forall w | 0 <= w < |s.workers| ensures MutexOk(s', w) && WakeOk(s', w) {
        WorkerMutex(s, u, w);
        WorkerKeepsWake(s, u, w);
      }
      forall task ensures ConservedAt(s', task) {
        assert ConservedAt(s, task);
        WorkerConserves(s, u, task);
      }
    case StepPoster(p) =>
      forall w | 0 <= w < |s.workers| ensures MutexOk(s', w) && WakeOk(s', w) {
        PosterMutex(s, p, w);
        PosterKeepsWake(s, p, w);
      }
      forall task ensures ConservedAt(s', task) {
        assert ConservedAt(s, task);
        PosterConserves(s, p, task);
      }
    case _ =>
      forall w | 0 <= w < |s.workers| ensures MutexOk(s', w) && WakeOk(s', w) {
        MinorWorker(s, a, s', w);
      }
      forall task ensures ConservedAt(s', task) {
        assert ConservedAt(s, task);
        MinorTask(s, a, s', task);
      }
  }

  // ----- whole runs

  /** Any interleaving; an action that has to wait leaves the state as it is. */
  function Execute(s: State, actions: seq<Action>): (s': State)
    requires Shape(s)
    ensures Shape(s')
  {
    if actions == [] then s
    else
      var before := Execute(s, actions[..|actions| - 1]);
      var last := actions[|actions| - 1];
      if Next(before, last) == None then before
      else
        ShapeStep(before, last);
        Next(before, last).value
  }

  lemma InitialInv(n: nat)
    requires n > 0
    ensures Inv(Initial(n))
  {
    var s := Initial(n);
    forall task
      ensures ConservedAt(s, task)
    {
      NothingAnywhere(s, n, task);
      assert s.queues[..n] == s.queues && s.workers[..n] == s.workers;
    }
  }

  lemma {:induction false} NothingAnywhere(s: State, k: nat, task: nat)
    requires k <= |s.queues| == |s.workers|
    requires forall w :: 0 <= w < |s.queues| ==> s.queues[w] == [] && s.workers[w] == LoopTest
    ensures Queued(s.queues[|s.queues| - k..], task) == 0 && BeingRun(s.workers[|s.queues| - k..], task) == 0
  {
    var n := |s.queues|;
    if k > 0 {
      NothingAnywhere(s, k - 1, task);
      assert s.queues[n - k..][1..] == s.queues[n - (k - 1)..];
      assert s.workers[n - k..][1..] == s.workers[n - (k - 1)..];
    }
  }

  lemma {:induction false} EveryRunKeepsInv(n: nat, actions: seq<Action>)
    requires n > 0
    ensures Shape(Initial(n)) && Inv(Execute(Initial(n), actions))
    decreases |actions|
  {
    InitialInv(n);
    if actions != [] {
      var front := actions[..|actions| - 1];
      EveryRunKeepsInv(n, front);
      var before := Execute(Initial(n), front);
      var last := actions[|actions| - 1];
      if Next(before, last).Some? {
        StepKeepsInv(before, last);
      }
    }
  }

  /** No lost wake-up: in every reachable state, a worker asleep although its own queue holds tasks has
      some call of `post` in flight that will go on to notify it. */
  lemma NoLostWakeup(n: nat, actions: seq<Action>, w: nat)
    requires n > 0 && Shape(Initial(n)) && w < |Execute(Initial(n), actions).workers|
    ensures var s := Execute(Initial(n), actions);
      s.workers[w] == Asleep && s.queues[w] != [] ==> Committed(s, w)
  {
    EveryRunKeepsInv(n, actions);
    var s := Execute(Initial(n), actions);
    assert WakeOk(s, w);
  }

  /** "Will go on to notify" is no empty promise: until the worker is awake, some call keeps the promise
      through every step, and some call of `post` directed at the worker is able to step. */
  lemma PromiseHolds(s: State, w: nat, a: Action)
    requires Inv(s) && w < |s.workers| && s.workers[w] == Asleep && Committed(s, w)
    requires Next(s, a).Some?
    ensures Inv(Next(s, a).value)
    ensures var s' := Next(s, a).value; s'.workers[w] == Asleep ==> Committed(s', w)
  {
    hide Place, Conserved, WakeOk, MutexOk, WillNotify;
    StepKeepsInv(s, a);
    var s' := Next(s, a).value;
    var q :| WillNotify(s, q, w);
    if a.StepPoster? {
      PromiseKept(s, a.p, q, w);
      SleeperNotified(s, a.p, w);
    } else if s'.workers[w] == Asleep {
      PromiseLeftAlone(s, w, a, q);
    }
  }

  lemma SleeperNotified(s: State, p: nat, w: nat)
    requires Shape(s) && w < |s.workers| && p in s.posters && PosterStep(s, p).Some? && s.workers[w] == Asleep
    ensures s.posters[p] == Notify(w) ==> PosterStep(s, p).value.workers[w] != Asleep
  {
    hide Place;
  }

  lemma PromiseLeftAlone(s: State, w: nat, a: Action, q: nat)
    requires Shape(s) && w < |s.workers| && s.workers[w] == Asleep && WillNotify(s, q, w)
    requires Next(s, a).Some? && !a.StepPoster? && Shape(Next(s, a).value) && w < |Next(s, a).value.workers|
    ensures WillNotify(Next(s, a).value, q, w)
  {
    hide Place;
  }

  lemma PromiseCanAdvance(s: State, w: nat) returns (p: nat)
    requires Inv(s) && w < |s.workers| && s.workers[w] == Asleep && Committed(s, w)
    ensures p in s.posters && TargetOf(s.posters[p]) == Some(w) && PosterStep(s, p).Some?
    ensures s.posters[p] != PushTask(w)
  {
    assert MutexOk(s, w);
    p :| WillNotify(s, p, w);
    if s.posters[p] == LockMutex(w) && s.mutexes[w] != Nobody {
      p := s.mutexes[w].p;
    }
  }

  ghost predicate SomeoneWaits(s: State, w: nat) {
    exists p :: p in s.posters && s.posters[p] == LockMutex(w)
  }

  /** How far a sleeping worker to whom a notification is promised is from being woken. */
  ghost function Rank(s: State, w: nat): (r: nat)
    requires Shape(s) && w < |s.workers|
    ensures 1 <= r <= 6
  {
    if s.mutexes[w].Poster? && s.mutexes[w].p in s.posters then
      match s.posters[s.mutexes[w].p]
      case Notify(_) => 1
      case ClearIdle(_) => 2
      case _ => 6
    else if SomeoneWaits(s, w) then 3
    else 4
  }

  /** A call of `post` whose next step brings worker `w` nearer to being woken: the one that holds the mutex,
      or else one that waits for it, or else one that has promised to notify. */
  ghost predicate Helps(s: State, w: nat, p: nat)
    requires Shape(s) && w < |s.workers|
  {
    && p in s.posters
    && if s.mutexes[w] != Nobody then s.mutexes[w] == Poster(p)
       else if SomeoneWaits(s, w) then s.posters[p] == LockMutex(w)
       else WillNotify(s, p, w)
  }

  ghost predicate Waiting(s: State, w: nat)
    requires Shape(s) && w < |s.workers|
  {
    s.workers[w] == Asleep && Committed(s, w)
  }

  /** What the calls of `post` directed at a sleeping worker can be doing. */
  lemma SleepFacts(s: State, w: nat)
    requires Inv(s) && w < |s.workers| && s.workers[w] == Asleep
    ensures Shape(s)
    ensures s.mutexes[w] == Nobody || (s.mutexes[w].Poster? && s.mutexes[w].p in s.posters)
    ensures s.mutexes[w].Poster? ==> PosterHolds(s.posters[s.mutexes[w].p], w)
    ensures forall p :: p in s.posters && PosterHolds(s.posters[p], w) ==> s.mutexes[w] == Poster(p)
    ensures s.mutexes[w] == Nobody ==> s.idle[w]
    ensures s.mutexes[w].Poster? && s.posters[s.mutexes[w].p] != Notify(w) ==> s.idle[w]
  {
    hide Conserved;
    assert MutexOk(s, w) && WakeOk(s, w);
  }

  /** There always is such a call, and it is able to step. */
  lemma SomeoneHelps(s: State, w: nat) returns (p: nat)
    requires Inv(s) && w < |s.workers| && Waiting(s, w)
    ensures Helps(s, w, p)
  {
    hide Inv;
    SleepFacts(s, w);
    if s.mutexes[w] != Nobody {
      p := s.mutexes[w].p;
    } else if SomeoneWaits(s, w) {
      p :| p in s.posters && s.posters[p] == LockMutex(w);
    } else {
      p :| WillNotify(s, p, w);
    }
  }

  /** Its step wakes the worker or brings it nearer. */
  lemma HelpFallsInRank(s: State, w: nat, p: nat)
    requires Inv(s) && w < |s.workers| && Waiting(s, w) && Helps(s, w, p)
    ensures PosterStep(s, p).Some? && Next(s, StepPoster(p)) == PosterStep(s, p) && Shape(PosterStep(s, p).value)
    ensures var s' := PosterStep(s, p).value;
      s'.workers[w] == Asleep ==> Rank(s', w) < Rank(s, w)
  {
    SleepFacts(s, w);
    hide Inv, Place;
    assert PosterStep(s, p).Some?;
    ShapeStepOf(s, p);
    var s' := PosterStep(s, p).value;
    if s.posters[p] == TestIdle(w) {
      assert s'.posters[p] == LockMutex(w);
    }
  }

  lemma ShapeStepOf(s: State, p: nat)
    requires Shape(s) && p in s.posters && PosterStep(s, p).Some?
    ensures Shape(PosterStep(s, p).value)
  {
    ShapeStep(s, StepPoster(p));
  }

  /** No step of anyone takes a sleeping worker further away, and a call that helps goes on helping until it
      steps, unless another brings the worker nearer first. */
  lemma RankNeverRises(s: State, w: nat, a: Action)
    requires Inv(s) && w < |s.workers| && Waiting(s, w) && Next(s, a).Some? && Shape(Next(s, a).value)
    ensures var s' := Next(s, a).value;
      s'.workers[w] == Asleep ==>
        && Rank(s', w) <= Rank(s, w)
        && forall p :: Helps(s, w, p) && a != StepPoster(p) ==> Helps(s', w, p) || Rank(s', w) < Rank(s, w)
  {
    SleepFacts(s, w);
    if a.StepPoster? {
      PosterRank(s, w, a.p);
    } else {
      QuietRank(s, w, a);
    }
  }

  lemma PosterRank(s: State, w: nat, u: nat)
    requires Inv(s) && w < |s.workers| && Waiting(s, w) && u in s.posters
    requires PosterStep(s, u).Some? && Shape(PosterStep(s, u).value)
    ensures var s' := PosterStep(s, u).value;
      s'.workers[w] == Asleep ==>
        && Rank(s', w) <= Rank(s, w)
        && forall p :: Helps(s, w, p) && p != u ==> Helps(s', w, p) || Rank(s', w) < Rank(s, w)
  {
    SleepFacts(s, w);
    hide Inv, Place;
    var s' := PosterStep(s, u).value;
    if Helps(s, w, u) {
      HelpFallsInRank(s, w, u);
    } else {
      OthersStep(s, w, u);
    }
  }

  /** What a step of call `u` can do to worker `w`'s mutex and flag. */
  lemma PosterMoves(s: State, w: nat, u: nat)
    requires Shape(s) && w < |s.workers| && u in s.posters && PosterStep(s, u).Some?
    ensures var s' := PosterStep(s, u).value;
      && |s'.mutexes| == |s.mutexes| && |s'.idle| == |s.idle|
      && (s'.mutexes[w] == s.mutexes[w] || s.posters[u] == LockMutex(w) || s.posters[u] == Unlock(w))
      && (s'.idle[w] == s.idle[w] || s.posters[u] == ClearIdle(w))
      && u in s'.posters && s'.posters == s.posters[u := s'.posters[u]]
      && (s'.posters[u] == LockMutex(w) ==> s.posters[u] == TestIdle(w) && s.idle[w])
      && (s.posters[u] == LockMutex(w) ==> s.mutexes[w] == Nobody)
  {
    hide Place;
    assert PosterStep(s, u).value.posters == s.posters[u := PosterStep(s, u).value.posters[u]];
  }

  lemma OthersFrame(s: State, w: nat, u: nat)
    requires Inv(s) && w < |s.workers| && Waiting(s, w) && u in s.posters && !Helps(s, w, u)
    requires PosterStep(s, u).Some? && Shape(PosterStep(s, u).value)
    ensures var s' := PosterStep(s, u).value;
      && s'.mutexes[w] == s.mutexes[w] && s'.idle[w] == s.idle[w]
      && u in s'.posters && s'.posters == s.posters[u := s'.posters[u]]
      && (s.mutexes[w] == Nobody || (s.mutexes[w].Poster? && s.mutexes[w].p in s.posters && s.mutexes[w].p != u))
      && (s.mutexes[w] == Nobody ==> (SomeoneWaits(s', w) <==> SomeoneWaits(s, w)))
      && s.posters[u] != LockMutex(w)
  {
    SleepFacts(s, w);
    PosterMoves(s, w, u);
    hide Inv, PosterStep;
    var s' := PosterStep(s, u).value;
    assert s.posters[u] == LockMutex(w) ==> SomeoneWaits(s, w);
    if SomeoneWaits(s, w) {
      var q :| q in s.posters && s.posters[q] == LockMutex(w);
      assert s'.posters[q] == s.posters[q];
    }
    if SomeoneWaits(s', w) {
      var q :| q in s'.posters && s'.posters[q] == LockMutex(w);
      assert q != u ==> s.posters[q] == LockMutex(w);
    }
  }

  /** The step of a call that does not help leaves rank and helpers alone. */
  lemma OthersStep(s: State, w: nat, u: nat)
    requires Inv(s) && w < |s.workers| && Waiting(s, w) && u in s.posters && !Helps(s, w, u)
    requires PosterStep(s, u).Some? && Shape(PosterStep(s, u).value)
    ensures var s' := PosterStep(s, u).value;
      s'.workers[w] == Asleep ==>
        && Rank(s', w) == Rank(s, w)
        && forall p :: Helps(s, w, p) ==> Helps(s', w, p)
  {
    OthersFrame(s, w, u);
    hide Inv, PosterStep, SomeoneWaits;
  }

  /** A step of a worker, a new call, a call of stop, a spurious wake-up. */
  lemma QuietRank(s: State, w: nat, a: Action)
    requires Inv(s) && w < |s.workers| && Waiting(s, w) && !a.StepPoster?
    requires Next(s, a).Some? && Shape(Next(s, a).value)
    ensures var s' := Next(s, a).value;
      s'.workers[w] == Asleep ==>
        && Rank(s', w) == Rank(s, w)
        && forall p :: Helps(s, w, p) ==> Helps(s', w, p)
  {
    SleepFacts(s, w);
    hide Inv, Place;
    var s' := Next(s, a).value;
    if s'.workers[w] == Asleep {
      if a.StepWorker? {
        WorkerElsewhere(s, a.w, w);
      }
      assert s'.mutexes[w] == s.mutexes[w] && s'.idle[w] == s.idle[w];
      assert forall p :: p in s.posters ==> p in s'.posters && s'.posters[p] == s.posters[p];
      assert forall p :: p in s'.posters && p !in s.posters ==> s'.posters[p] == TestStop;
    }
  }

  /** How many of the steps, taken one after the other from `s` on, are steps of calls that help worker `w`. */
  ghost function HelpfulSteps(s: State, actions: seq<Action>, w: nat): nat
    requires Shape(s) && w < |s.workers|
    decreases |actions|
  {
    if actions == [] then 0
    else
      var front, last := actions[..|actions| - 1], actions[|actions| - 1];
      var before := Execute(s, front);
      HelpfulSteps(s, front, w)
      + if w < |before.workers| && last.StepPoster? && Helps(before, w, last.p) then 1 else 0
  }

  /** Whether worker `w` sleeps all the while. */
  ghost predicate SleepsOn(s: State, actions: seq<Action>, w: nat)
    requires Shape(s)
  {
    forall k :: 0 <= k <= |actions| ==>
      var s' := Execute(s, actions[..k]); w < |s'.workers| && s'.workers[w] == Asleep
  }

  /** Certain to notify: while a worker to whom a notification is promised sleeps, whatever else happens, calls
      that help it take at most five steps, and there always is one, able to step, that goes on helping until
      it steps or the worker is nearer to being woken. So the worker does not sleep on for ever unless calls
      that could step never do. */
  lemma {:induction false} WokenInTime(s: State, actions: seq<Action>, w: nat)
    requires Inv(s) && w < |s.workers| && Waiting(s, w) && SleepsOn(s, actions, w)
    ensures var s' := Execute(s, actions);
      && Inv(s') && w < |s'.workers| && Waiting(s', w)
      && HelpfulSteps(s, actions, w) + Rank(s', w) <= Rank(s, w)
      && exists p :: Helps(s', w, p) && Next(s', StepPoster(p)).Some?
    decreases |actions|
  {
    hide Inv, Helps, Rank, Next;
    HasShape(s);
    if actions != [] {
      var front, last := actions[..|actions| - 1], actions[|actions| - 1];
      SleepsBefore(s, actions, w);
      WokenInTime(s, front, w);
      WokenStep(Execute(s, front), w, last);
      assert actions[..|actions|] == actions;
      var s' := Execute(s, actions);
    }
    var s' := Execute(s, actions);
    var p := SomeoneHelps(s', w);
    HelperSteps(s', w, p);
  }

  lemma HasShape(s: State)
    requires Inv(s)
    ensures Shape(s)
  {}

  lemma SleepsBefore(s: State, actions: seq<Action>, w: nat)
    requires Shape(s) && actions != [] && SleepsOn(s, actions, w)
    ensures SleepsOn(s, actions[..|actions| - 1], w)
    ensures var s' := Execute(s, actions); w < |s'.workers| && s'.workers[w] == Asleep
  {
    hide Execute;
    var front := actions[..|actions| - 1];
    assert actions[..|actions|] == actions;
    forall k | 0 <= k <= |front|
      ensures front[..k] == actions[..k]
    {}
  }

  lemma HelperSteps(s: State, w: nat, p: nat)
    requires Inv(s) && w < |s.workers| && Waiting(s, w) && Helps(s, w, p)
    ensures Next(s, StepPoster(p)).Some?
  {
    HelpFallsInRank(s, w, p);
  }

  lemma WokenStep(s: State, w: nat, a: Action)
    requires Inv(s) && w < |s.workers| && Waiting(s, w)
    ensures Next(s, a).None? ==> !(a.StepPoster? && Helps(s, w, a.p))
    ensures Next(s, a).Some? ==>
      var s' := Next(s, a).value;
      && Inv(s') && w < |s'.workers|
      && (s'.workers[w] == Asleep ==>
            Waiting(s', w) && Rank(s', w) + (if a.StepPoster? && Helps(s, w, a.p) then 1 else 0) <= Rank(s, w))
  {
    if Next(s, a).Some? {
      PromiseHolds(s, w, a);
      hide Inv, Next, Rank, Helps;
      SameWorkers(s, a);
      RankNeverRises(s, w, a);
      if a.StepPoster? && Helps(s, w, a.p) {
        HelpFallsInRank(s, w, a.p);
      }
    } else if a.StepPoster? && Helps(s, w, a.p) {
      HelpFallsInRank(s, w, a.p);
    }
  }

  lemma SameWorkers(s: State, a: Action)
    requires Inv(s) && Next(s, a).Some?
    ensures |Next(s, a).value.workers| == |s.workers| && Shape(s) && Shape(Next(s, a).value)
  {
    ShapeStep(s, a);
  }

  /** Every posted task is in exactly one of: a queue, the hands of a worker, the finished ones. */
  lemma TasksConserved(n: nat, actions: seq<Action>, task: nat)
    requires n > 0 && Shape(Initial(n))
    ensures var s := Execute(Initial(n), actions);
      Queued(s.queues, task) + BeingRun(s.workers, task) + s.finished[task] == if Posted(s, task) then 1 else 0
  {
    EveryRunKeepsInv(n, actions);
    assert ConservedAt(Execute(Initial(n), actions), task);
  }
}
