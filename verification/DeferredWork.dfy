/** The hand-off of deferred callbacks to an event loop: the mutex-protected vector of EventLoop.cpp,
    the eventfd that wakes the loop, and the edge-triggered epoll registration of EventPoller.cpp. One
    step is one critical section, one system call or one callback. */
module DeferredWork {
  import opened Sequences
  import opened Wrappers

  /** Where the loop thread is. */
  datatype LoopPC =
    | LoopTest                             // while(_is_running)
    | CheckTimers
    | Poll                                 // in epoll_wait, possibly blocked
    | Dispatch(wakeUp: bool)               // handling events; `wakeUp`: the eventfd is among them
    | SwapDefers
    | RunBatch(rest: seq<Callback>)
    | Stopped

  /** A queued callback: the call of queue_work it came from, and how many batches had been taken when it
      was queued. */
  datatype Callback = Callback(call: nat, queuedAt: nat)

  /** Where a call of queue_work or stop_event_loop is. */
  datatype CallPC = PushDefer | ClearRunning | WriteFd | Done

  datatype State = State(
    pending: seq<Callback>,     // _defer_functors
    counter: nat,               // the eventfd's counter
    edge: bool,                 // the eventfd is on epoll's ready list
    running: bool,              // _is_running
    loop: LoopPC,
    calls: map<nat, CallPC>,
    queued: seq<Callback>,      // everything queued, in order
    batches: seq<seq<Callback>>, // the batches taken, in order
    ran: seq<Callback>)         // the callbacks run, in order

  datatype Action =
    | CallQueueWork(c: nat)
    | CallStop(c: nat)
    | StepCall(c: nat)
    | PollWakesUp               // epoll_wait reports the eventfd
    | PollOther                 // epoll_wait returns without it: other descriptors, timeout, signal
    | PollDropsEdge             // the kernel finds a listed eventfd not readable and delists it
    | StepLoop

  function Initial(): State {
    State([], 0, false, true, LoopTest, map[], [], [], [])
  }

  function Next(s: State, a: Action): Option<State> {
    match a
    case CallQueueWork(c) => if c in s.calls then None else Some(s.(calls := s.calls[c := PushDefer]))
    case CallStop(c) => if c in s.calls then None else Some(s.(calls := s.calls[c := ClearRunning]))
    case StepCall(c) => if c in s.calls then CallStep(s, c) else None
    case PollWakesUp =>
      if s.loop == Poll && s.edge && s.counter > 0 then Some(s.(loop := Dispatch(true), edge := false)) else None
    case PollOther => if s.loop == Poll then Some(s.(loop := Dispatch(false))) else None
    case PollDropsEdge =>
      if s.loop == Poll && s.edge && s.counter == 0 then Some(s.(edge := false)) else None
    case StepLoop => LoopStep(s)
  }

  function CallStep(s: State, c: nat): Option<State>
    requires c in s.calls
  {
    match s.calls[c]
    case PushDefer =>
      var cb := Callback(c, |s.batches|);
      Some(s.(pending := s.pending + [cb], queued := s.queued + [cb], calls := s.calls[c := WriteFd]))
    case ClearRunning => Some(s.(running := false, calls := s.calls[c := WriteFd]))
    case WriteFd => Some(s.(counter := s.counter + 1, edge := true, calls := s.calls[c := Done]))
    case Done => None
  }

  function LoopStep(s: State): Option<State> {
    match s.loop
    case LoopTest => Some(s.(loop := if s.running then CheckTimers else Stopped))
    case CheckTimers => Some(s.(loop := Poll))
    case Poll => None
    case Dispatch(wakeUp) => Some(s.(counter := if wakeUp then 0 else s.counter, loop := SwapDefers))
    case SwapDefers => Some(s.(pending := [], batches := s.batches + [s.pending], loop := RunBatch(s.pending)))
    case RunBatch(rest) =>
      if rest == [] then Some(s.(loop := LoopTest))
      else Some(s.(ran := s.ran + [rest[0]], loop := RunBatch(rest[1..])))
    case Stopped => None
  }

  // ----- the invariant

  /** A call has pushed its callback, or cleared the flag, and has yet to write to the eventfd. */
  ghost predicate WritePending(s: State) {
    exists c :: c in s.calls && s.calls[c] == WriteFd
  }

  predicate WakeUpPending(s: State) {
    s.edge && s.counter > 0
  }

  function Unfinished(pc: LoopPC): seq<Callback> {
    if pc.RunBatch? then pc.rest else []
  }

  /** Callbacks run once each, in queueing order. */
  predicate Ordered(s: State) {
    && s.queued == s.ran + Unfinished(s.loop) + s.pending
    && s.queued == Concat(s.batches) + s.pending
  }

  /** A callback is run by the first batch taken after it was queued. */
  predicate Batched(s: State) {
    && (forall i :: 0 <= i < |s.pending| ==> s.pending[i].queuedAt == |s.batches|)
    && (forall k, i :: 0 <= k < |s.batches| && 0 <= i < |s.batches[k]| ==> s.batches[k][i].queuedAt == k)
  }

  /** Unless the loop is about to take the next batch anyway, pending work has a wake-up on its way; and a
      reported eventfd is readable. */
  ghost predicate Wakeable(s: State) {
    && (s.pending != [] && !s.loop.Dispatch? && !s.loop.SwapDefers? ==> WritePending(s) || WakeUpPending(s))
    && (s.loop == Dispatch(true) ==> s.counter > 0)
  }

  ghost predicate Inv(s: State) {
    Ordered(s) && Batched(s) && Wakeable(s)
  }

  lemma LoopKeepsOrder(s: State)
    requires Ordered(s) && LoopStep(s).Some?
    ensures Ordered(LoopStep(s).value)
  {
    var s' := LoopStep(s).value;
    if s.loop == SwapDefers {
      ConcatPush(s.batches, s.pending);
      assert s'.queued == s'.ran + s.pending + [];
      assert s'.queued == Concat(s'.batches) + [];
    } else if s.loop.RunBatch? && s.loop.rest != [] {
      assert s.loop.rest == [s.loop.rest[0]] + s.loop.rest[1..];
      assert s'.ran + s.loop.rest[1..] == s.ran + s.loop.rest;
    }
  }

  lemma CallKeepsOrder(s: State, c: nat)
    requires Ordered(s) && c in s.calls && CallStep(s, c).Some?
    ensures Ordered(CallStep(s, c).value)
  {
    if s.calls[c] == PushDefer {
      var cb := [Callback(c, |s.batches|)];
      var before := s.ran + Unfinished(s.loop);
      assert before + s.pending + cb == before + (s.pending + cb);
      assert Concat(s.batches) + s.pending + cb == Concat(s.batches) + (s.pending + cb);
    }
  }

  lemma StepKeepsOrder(s: State, a: Action)
    requires Ordered(s) && Next(s, a).Some?
    ensures Ordered(Next(s, a).value)
  {
    hide LoopStep, CallStep;
    match a
    case StepLoop => LoopKeepsOrder(s);
    case StepCall(c) => CallKeepsOrder(s, c);
    case _ =>
  }

  lemma StepKeepsBatches(s: State, a: Action)
    requires Batched(s) && Next(s, a).Some?
    ensures Batched(Next(s, a).value)
  {}

  lemma StepKeepsWake(s: State, a: Action)
    requires Wakeable(s) && Next(s, a).Some?
    ensures Wakeable(Next(s, a).value)
  {
    var s' := Next(s, a).value;
    if WritePending(s) {
      var c :| c in s.calls && s.calls[c] == WriteFd;
      assert !(a.StepCall? && a.c == c) ==> c in s'.calls && s'.calls[c] == WriteFd;
    }
    if a.StepCall? && (s.calls[a.c] == PushDefer || s.calls[a.c] == ClearRunning) {
      assert a.c in s'.calls && s'.calls[a.c] == WriteFd;
    }
  }

  lemma StepKeepsInv(s: State, a: Action)
    requires Inv(s) && Next(s, a).Some?
    ensures Inv(Next(s, a).value)
  {
    StepKeepsOrder(s, a);
    StepKeepsBatches(s, a);
    StepKeepsWake(s, a);
    hide Next, Ordered, Batched, Wakeable;
  }

  // ----- whole runs

  function Execute(actions: seq<Action>): State {
    if actions == [] then Initial()
    else
      var before := Execute(actions[..|actions| - 1]);
      match Next(before, actions[|actions| - 1])
      case None => before
      case Some(s') => s'
  }

  lemma {:induction false} EveryRunKeepsInv(actions: seq<Action>)
    ensures Inv(Execute(actions))
  {
    if actions != [] {
      var front := actions[..|actions| - 1];
      EveryRunKeepsInv(front);
      if Next(Execute(front), actions[|actions| - 1]).Some? {
        StepKeepsInv(Execute(front), actions[|actions| - 1]);
      }
    }
  }

  /** Deferred work is never stranded: in every interleaving, when the loop is in epoll_wait with callbacks
      pending, epoll_wait can report the eventfd now, or some call has yet to make the write that lets it. */
  lemma NeverStranded(actions: seq<Action>)
    ensures var s := Execute(actions);
      s.loop == Poll && s.pending != [] ==>
        Next(s, PollWakesUp).Some? || exists c :: c in s.calls && s.calls[c] == WriteFd && Next(s, StepCall(c)).Some?
  {
    EveryRunKeepsInv(actions);
    var s := Execute(actions);
    if s.loop == Poll && s.pending != [] && !WakeUpPending(s) {
      var c :| c in s.calls && s.calls[c] == WriteFd;
      assert Next(s, StepCall(c)).Some?;
    }
  }

  /** Callbacks run once each, in queueing order; those queued while a batch runs wait for the next one. */
  lemma RunInOrder(actions: seq<Action>)
    ensures var s := Execute(actions);
      && s.ran + Unfinished(s.loop) == Concat(s.batches)
      && s.queued == s.ran + Unfinished(s.loop) + s.pending
      && (forall k, i :: 0 <= k < |s.batches| && 0 <= i < |s.batches[k]| ==> s.batches[k][i].queuedAt == k)
  {
    EveryRunKeepsInv(actions);
    var s := Execute(actions);
    var a, b := s.ran + Unfinished(s.loop), Concat(s.batches);
    assert |a| == |b|;
    assert a == (a + s.pending)[..|a|] && b == (b + s.pending)[..|b|];
  }

  // ----- what becomes of each call

  /** How many callbacks of call `c` are in a list. */
  function Times(q: seq<Callback>, c: nat): nat {
    if q == [] then 0 else Times(q[..|q| - 1], c) + if q[|q| - 1].call == c then 1 else 0
  }

  /** The calls that have begun: true for queue_work, false for stop_event_loop. */
  function Begun(actions: seq<Action>): map<nat, bool> {
    if actions == [] then map[]
    else
      var front, last := actions[..|actions| - 1], actions[|actions| - 1];
      match last
      case CallQueueWork(c) => if c in Execute(front).calls then Begun(front) else Begun(front)[c := true]
      case CallStop(c) => if c in Execute(front).calls then Begun(front) else Begun(front)[c := false]
      case _ => Begun(front)
  }

  /** A call of queue_work has queued its callback, once, exactly when it is past its first step; a call of
      stop_event_loop past its first step has cleared the flag, and nothing else clears it. */
  ghost predicate CallsOk(s: State, begun: map<nat, bool>) {
    && s.calls.Keys == begun.Keys
    && (forall c :: c in begun && begun[c] ==> s.calls[c] != ClearRunning)
    && (forall c :: c in begun && !begun[c] ==> s.calls[c] != PushDefer && (s.calls[c] != ClearRunning ==> !s.running))
    && (forall c: nat :: Times(s.queued, c) == if c in begun && begun[c] && s.calls[c] != PushDefer then 1 else 0)
    && (!s.running ==> exists c :: c in begun && !begun[c] && s.calls[c] != ClearRunning)
  }

  lemma TimesPush(q: seq<Callback>, cb: Callback, c: nat)
    ensures Times(q + [cb], c) == Times(q, c) + if cb.call == c then 1 else 0
  {
    assert (q + [cb])[..|q|] == q;
  }

  lemma CallKeepsCalls(s: State, c: nat, begun: map<nat, bool>)
    requires CallsOk(s, begun) && c in s.calls && CallStep(s, c).Some?
    ensures CallsOk(CallStep(s, c).value, begun)
  {
    hide Times;
    var s' := CallStep(s, c).value;
    var pc := s'.calls[c];
    assert s'.calls == s.calls[c := pc];
    if s.calls[c] == PushDefer {
      forall d: nat
        ensures Times(s'.queued, d) == if d in begun && begun[d] && s'.calls[d] != PushDefer then 1 else 0
      {
        TimesPush(s.queued, Callback(c, |s.batches|), d);
      }
    }
    if s.calls[c] == ClearRunning {
      assert c in begun && !begun[c] && s'.calls[c] != ClearRunning;
    } else if !s.running {
      var d :| d in begun && !begun[d] && s.calls[d] != ClearRunning;
      assert s'.calls[d] != ClearRunning;
    }
  }

  lemma LoopKeepsCalls(s: State, a: Action, begun: map<nat, bool>)
    requires CallsOk(s, begun) && Next(s, a).Some? && !a.StepCall? && !a.CallQueueWork? && !a.CallStop?
    ensures CallsOk(Next(s, a).value, begun)
  {
    hide Times;
  }

  lemma NewKeepsCalls(s: State, c: nat, work: bool, begun: map<nat, bool>)
    requires CallsOk(s, begun) && c !in s.calls
    ensures CallsOk(s.(calls := s.calls[c := if work then PushDefer else ClearRunning]), begun[c := work])
  {
    hide Times;
    var begun' := begun[c := work];
    if !s.running {
      var d :| d in begun && !begun[d] && s.calls[d] != ClearRunning;
      assert d in begun' && !begun'[d];
    }
  }

  /** Every call of queue_work queues its callback exactly once, and does so before it wakes the loop; every call
      of stop_event_loop clears the flag before it wakes the loop, and the flag is cleared by no other means. */
  lemma {:induction false} CallsHaveEffect(actions: seq<Action>)
    ensures CallsOk(Execute(actions), Begun(actions))
  {
    hide CallsOk, Next;
    if actions == [] {
      NoCalls();
    } else {
      var front, last := actions[..|actions| - 1], actions[|actions| - 1];
      CallsHaveEffect(front);
      var s := Execute(front);
      Accepted(s, last);
      if Next(s, last).Some? {
        match last
        case CallQueueWork(c) => NewKeepsCalls(s, c, true, Begun(front));
        case CallStop(c) => NewKeepsCalls(s, c, false, Begun(front));
        case StepCall(c) => CallKeepsCalls(s, c, Begun(front));
        case _ => LoopKeepsCalls(s, last, Begun(front));
      }
    }
  }

  lemma NoCalls()
    ensures CallsOk(Initial(), map[])
  {}

  lemma Accepted(s: State, a: Action)
    ensures a.CallQueueWork?
        ==> Next(s, a) == if a.c in s.calls then None else Some(s.(calls := s.calls[a.c := PushDefer]))
    ensures a.CallStop?
        ==> Next(s, a) == if a.c in s.calls then None else Some(s.(calls := s.calls[a.c := ClearRunning]))
    ensures a.StepCall? ==> Next(s, a) == if a.c in s.calls then CallStep(s, a.c) else None
  {}

  /** A call that has begun is able to step until it has returned. */
  lemma CallsGoOn(s: State, c: nat)
    requires c in s.calls && s.calls[c] != Done
    ensures CallStep(s, c).Some?
    ensures s.calls[c] == WriteFd ==> CallStep(s, c).value.calls[c] == Done
    ensures s.calls[c] != WriteFd ==> CallStep(s, c).value.calls[c] == WriteFd
  {}

  // ----- the end of the loop

  /** A loop on its way into epoll_wait that has been told to stop has a wake-up on its way. */
  ghost predicate StopOk(s: State) {
    !s.running && (s.loop == CheckTimers || s.loop == Poll) ==> WritePending(s) || WakeUpPending(s)
  }

  lemma StepKeepsStop(s: State, a: Action)
    requires StopOk(s) && Next(s, a).Some?
    ensures StopOk(Next(s, a).value)
  {
    var s' := Next(s, a).value;
    if WritePending(s) {
      var c :| c in s.calls && s.calls[c] == WriteFd;
      assert !(a.StepCall? && a.c == c) ==> c in s'.calls && s'.calls[c] == WriteFd;
    }
    if a.StepCall? && (s.calls[a.c] == PushDefer || s.calls[a.c] == ClearRunning) {
      assert a.c in s'.calls && s'.calls[a.c] == WriteFd;
    }
  }

  /** No stop is missed: in every interleaving, when the loop is in epoll_wait although it has been told to stop,
      epoll_wait can report the eventfd now, or some call has yet to make the write that lets it. */
  lemma {:induction false} StopIsNotMissed(actions: seq<Action>)
    ensures var s := Execute(actions);
      && StopOk(s)
      && (s.loop == Poll && !s.running ==>
            || Next(s, PollWakesUp).Some?
            || exists c :: c in s.calls && s.calls[c] == WriteFd && Next(s, StepCall(c)).Some?)
  {
    if actions != [] {
      var front := actions[..|actions| - 1];
      StopIsNotMissed(front);
      if Next(Execute(front), actions[|actions| - 1]).Some? {
        StepKeepsStop(Execute(front), actions[|actions| - 1]);
      }
    }
    var s := Execute(actions);
    if s.loop == Poll && !s.running && !WakeUpPending(s) {
      var c :| c in s.calls && s.calls[c] == WriteFd;
      assert Next(s, StepCall(c)).Some?;
    }
  }

  /** How many steps the loop is from its end once it has been told to stop. */
  function StepsToStop(loop: LoopPC): nat {
    match loop
    case Stopped => 0
    case LoopTest => 1
    case RunBatch(rest) => 2 + |rest|
    case SwapDefers => 3
    case Dispatch(_) => 4
    case Poll => 5
    case CheckTimers => 6
  }

  /** Once told to stop, the loop starts no further round: apart from the batch it takes on the way, every step
      brings it nearer to its end, and outside epoll_wait it is always able to step. */
  lemma EndsWhenStopped(s: State, a: Action)
    requires !s.running && Next(s, a).Some?
    ensures var s' := Next(s, a).value;
      && !s'.running
      && (s'.loop != s.loop && s.loop != SwapDefers ==> StepsToStop(s'.loop) < StepsToStop(s.loop))
      && (s.loop == SwapDefers && s'.loop != s.loop ==> s'.loop == RunBatch(s.pending))
    ensures s.loop != Poll && s.loop != Stopped ==> LoopStep(s).Some? && LoopStep(s).value.loop != s.loop
  {}

  /** The loop ends only if it was told to. */
  lemma {:induction false} EndsOnlyWhenStopped(actions: seq<Action>)
    ensures var s := Execute(actions); s.loop == Stopped ==> !s.running
  {
    if actions != [] {
      EndsOnlyWhenStopped(actions[..|actions| - 1]);
    }
  }

  // ----- the eventfd

  /** How often the eventfd has been written since the loop last read it. */
  function Unread(actions: seq<Action>): nat {
    if actions == [] then 0
    else
      var front, last := actions[..|actions| - 1], actions[|actions| - 1];
      var s := Execute(front);
      match last
      case StepLoop => if s.loop == Dispatch(true) then 0 else Unread(front)
      case StepCall(c) => Unread(front) + if c in s.calls && s.calls[c] == WriteFd then 1 else 0
      case _ => Unread(front)
  }

  /** The eventfd holds exactly the writes that the loop has not read; the loop reads it only when epoll_wait has
      reported it. */
  lemma {:induction false} CounterIsUnread(actions: seq<Action>)
    ensures Execute(actions).counter == Unread(actions)
  {
    if actions != [] {
      hide Next;
      var front, last := actions[..|actions| - 1], actions[|actions| - 1];
      CounterIsUnread(front);
      CounterStep(Execute(front), last);
    }
  }

  lemma CounterStep(s: State, a: Action)
    ensures var s' := if Next(s, a).Some? then Next(s, a).value else s;
      s'.counter ==
        match a
        case StepLoop => if s.loop == Dispatch(true) then 0 else s.counter
        case StepCall(c) => s.counter + if c in s.calls && s.calls[c] == WriteFd then 1 else 0
        case _ => s.counter
  {}
}
