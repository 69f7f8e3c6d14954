/** The two-lock linked queue of ThreadPool.h and ThreadPool.cpp as a state machine: one step is one
    lock operation or one access to a shared pointer, and any number of threads interleave freely. */
module TwoLockQueue {
  import opened Wrappers

  /** A QueueNode; the dummy at the head has no data. */
  datatype Node<T> = Node(data: Option<T>, next: Option<nat>)

  /** Where a thread is. The comment tells what it does next; "holds" lists the locks it has. */
  datatype PC<T> =
    | Outside
    | PushLock(value: T)    // push_back: take the tail lock
    | PushLink(value: T)    // holds tail: assign `_tail->next`
    | PushMove(value: T)    // holds tail: assign `_tail`, unlock
    | PopLockHead           // try_pop: take the head lock
    | PopLockTail           // holds head: take the tail lock
    | PopCheck              // holds both: compare `_head`, `_head->next` and `_tail`
    | PopOneMove            // holds both: one node, assign `_tail`
    | PopOneRead(taken: T)  // holds both: read the data of the node just cut off, unlock
    | PopRead               // holds head: read `_head->next->data`
    | PopUnlink(value: T)   // holds head: assign `_head->next`, unlock
    | EmptyLock             // empty(): take the tail lock, compare, unlock

  predicate HoldsHead<T>(pc: PC<T>) {
    pc.PopLockTail? || pc.PopCheck? || pc.PopOneMove? || pc.PopOneRead? || pc.PopRead? || pc.PopUnlink?
  }

  predicate HoldsTail<T>(pc: PC<T>) {
    pc.PushLink? || pc.PushMove? || pc.PopCheck? || pc.PopOneMove? || pc.PopOneRead?
  }

  datatype State<T> = State(
    heap: map<nat, Node<T>>,
    head: nat,
    tail: nat,
    headOwner: Option<nat>,
    tailOwner: Option<nat>,
    pcs: map<nat, PC<T>>,
    returned: seq<T>)  // values returned by try_pop, in order of return

  /** What a step means for the abstract queue. */
  datatype Label<T> = Tau | Push(value: T) | Pop(value: T) | NoData | SawEmpty(empty: bool)

  datatype Action<T> = CallPush(thread: nat, value: T) | CallPop(thread: nat) | CallEmpty(thread: nat)
                     | Go(thread: nat, addr: nat)

  /** A step is impossible now, or touches a node that is not allocated (or would destroy a chain of
      nodes), or leads to a next state. */
  datatype Move<T> = Blocked | Fault | To(state: State<T>, obs: Label<T>)

  function PcOf<T>(s: State<T>, t: nat): PC<T> {
    if t in s.pcs then s.pcs[t] else Outside
  }

  function At<T>(s: State<T>, t: nat, pc: PC<T>): State<T> {
    s.(pcs := s.pcs[t := pc])
  }

  function Initial<T>(head: nat): State<T> {
    State(map[head := Node(None, None)], head, head, None, None, map[], [])
  }

  /** `p->next` for an allocated `p` with an allocated successor. */
  function Succ<T>(heap: map<nat, Node<T>>, p: nat): Option<nat> {
    if p in heap && heap[p].next.Some? && heap[p].next.value in heap then heap[p].next else None
  }

  function Next<T(==)>(s: State<T>, a: Action<T>): Move<T> {
    var t := a.thread;
    match a
    case CallPush(_, v) => if PcOf(s, t) == Outside then To(At(s, t, PushLock(v)), Tau) else Blocked
    case CallPop(_) => if PcOf(s, t) == Outside then To(At(s, t, PopLockHead), Tau) else Blocked
    case CallEmpty(_) => if PcOf(s, t) == Outside then To(At(s, t, EmptyLock), Tau) else Blocked
    case Go(_, addr) => (
      match PcOf(s, t)
      case Outside => Blocked
      case PushLock(v) =>
        if s.tailOwner.Some? then Blocked else To(At(s.(tailOwner := Some(t)), t, PushLink(v)), Tau)
      case PushLink(v) => Link(s, t, v, addr)
      case PushMove(v) =>
        var n := Succ(s.heap, s.tail);
        if n == None then Fault
        else To(At(s.(tail := n.value, tailOwner := None), t, Outside), Push(v))
      case PopLockHead =>
        if s.headOwner.Some? then Blocked else To(At(s.(headOwner := Some(t)), t, PopLockTail), Tau)
      case PopLockTail =>
        if s.tailOwner.Some? then Blocked else To(At(s.(tailOwner := Some(t)), t, PopCheck), Tau)
      case PopCheck =>
        if s.head == s.tail then To(At(s.(headOwner := None, tailOwner := None), t, Outside), NoData)
        else if s.head !in s.heap then Fault
        else if s.heap[s.head].next == Some(s.tail) then To(At(s, t, PopOneMove), Tau)
        else To(At(s.(tailOwner := None), t, PopRead), Tau)
      case PopOneMove =>
        var n := Succ(s.heap, s.head);
        if n == None || s.heap[n.value].data == None then Fault
        else
          var v := s.heap[n.value].data.value;
          To(At(s.(tail := s.head), t, PopOneRead(v)), Pop(v))
      case PopOneRead(_) =>
        var n := Succ(s.heap, s.head);
        if n == None || s.heap[n.value].data == None then Fault
        else
          var v := s.heap[n.value].data.value;
          To(At(s.(headOwner := None, tailOwner := None, returned := s.returned + [v]), t, Outside), Tau)
      case PopRead =>
        var n := Succ(s.heap, s.head);
        if n == None || s.heap[n.value].data == None then Fault
        else To(At(s, t, PopUnlink(s.heap[n.value].data.value)), Tau)
      case PopUnlink(v) => Unlink(s, t, v)
      case EmptyLock =>
        if s.tailOwner.Some? then Blocked else To(At(s, t, Outside), SawEmpty(s.tail == s.head))
    )
  }

  /** `_tail->next = std::move(new_node)`: the node `_tail->next` owned before, if any, is destroyed. The
      allocator never hands out an address in use. */
  function Link<T(==)>(s: State<T>, t: nat, v: T, addr: nat): Move<T> {
    if addr in s.heap then Blocked
    else if s.tail !in s.heap then Fault
    else
      var stale := s.heap[s.tail].next;
      if stale.Some? && (stale.value !in s.heap || stale.value == s.tail || s.heap[stale.value].next.Some?) then Fault
      else
        var kept := if stale.Some? then s.heap - {stale.value} else s.heap;
        var heap := kept[addr := Node(Some(v), None)][s.tail := s.heap[s.tail].(next := Some(addr))];
        To(At(s.(heap := heap), t, PushMove(v)), Tau)
  }

  /** `_head->next = std::move(_head->next->next)`: the unlinked node is destroyed. */
  function Unlink<T(==)>(s: State<T>, t: nat, v: T): Move<T> {
    var n := Succ(s.heap, s.head);
    if n == None || n.value == s.head || s.heap[n.value].data == None then Fault
    else
      var node := s.heap[n.value];
      var heap := s.heap[s.head := s.heap[s.head].(next := node.next)] - {n.value};
      To(At(s.(heap := heap, headOwner := None, returned := s.returned + [v]), t, Outside), Pop(node.data.value))
  }

  // ----- the invariant

  /** `path` is the chain of nodes from the dummy to the tail. */
  predicate IsPath<T(==)>(s: State<T>, path: seq<nat>) {
    && path != [] && path[0] == s.head && path[|path| - 1] == s.tail
    && (forall i, j :: 0 <= i < j < |path| ==> path[i] != path[j])
    && (forall i :: 0 <= i < |path| ==> path[i] in s.heap)
    && (forall i :: 0 <= i < |path| - 1 ==> s.heap[path[i]].next == Some(path[i + 1]))
    && (forall i :: 0 < i < |path| ==> s.heap[path[i]].data.Some?)
  }

  /** The abstract queue: the data of the nodes after the dummy. */
  function Contents<T(==)>(s: State<T>, path: seq<nat>): (q: seq<T>)
    requires IsPath(s, path)
    ensures |q| == |path| - 1
  {
    seq(|path| - 1, i requires 0 <= i < |path| - 1 => s.heap[path[i + 1]].data.value)
  }

  predicate LocksMatch<T>(s: State<T>) {
    forall t :: t in s.pcs ==>
      && (HoldsHead(s.pcs[t]) <==> s.headOwner == Some(t))
      && (HoldsTail(s.pcs[t]) <==> s.tailOwner == Some(t))
  }

  predicate OwnersKnown<T>(s: State<T>) {
    && (s.headOwner.Some? ==> s.headOwner.value in s.pcs)
    && (s.tailOwner.Some? ==> s.tailOwner.value in s.pcs)
  }

  predicate Linking<T>(s: State<T>) {
    s.tailOwner.Some? && PcOf(s, s.tailOwner.value).PushMove?
  }

  /** What hangs off the tail: nothing, the node being linked, or one stale node left behind by a pop that
      emptied the queue. Every other allocated node is on the path, so nothing leaks. */
  predicate TailOk<T(==)>(s: State<T>, path: seq<nat>)
    requires IsPath(s, path)
  {
    var n := s.heap[s.tail].next;
    && (n.Some? ==> n.value in s.heap && n.value !in path && s.heap[n.value].next == None && s.heap[n.value].data.Some?)
    && (n.Some? ==> Linking(s) || |path| == 1)
    && (forall k :: k in s.heap ==> k in path || n == Some(k))
  }

  /** What a thread inside a critical section may rely on. */
  predicate PcOk<T(==)>(s: State<T>, path: seq<nat>, pc: PC<T>)
    requires IsPath(s, path)
  {
    match pc
    case PushMove(v) => Succ(s.heap, s.tail).Some? && s.heap[s.heap[s.tail].next.value].data == Some(v)
    case PopOneMove => |path| == 2
    case PopOneRead(v) => |path| == 1 && Succ(s.heap, s.tail).Some? && s.heap[s.heap[s.tail].next.value].data == Some(v)
    case PopRead => |path| >= 3
    case PopUnlink(v) => |path| >= 3 && s.heap[path[1]].data == Some(v)
    case _ => true
  }

  predicate Inv<T(==)>(s: State<T>, path: seq<nat>) {
    && IsPath(s, path) && LocksMatch(s) && OwnersKnown(s) && TailOk(s, path)
    && (forall t :: t in s.pcs ==> PcOk(s, path, s.pcs[t]))
  }

  /** A value taken out of the queue whose pop has not returned yet. */
  function InFlight<T>(s: State<T>): seq<T> {
    if s.headOwner.Some? then
      match PcOf(s, s.headOwner.value)
      case PopOneRead(v) => [v]
      case _ => []
    else []
  }

  // ----- the abstract queue

  /** What a thread's step showed. */
  datatype Seen<T> = Seen(thread: nat, obs: Label<T>)

  /** One observation replayed on a sequential FIFO queue; None if a FIFO queue could not show it. */
  function FifoStep<T(==)>(q: seq<T>, obs: Label<T>): Option<seq<T>> {
    match obs
    case Tau => Some(q)
    case Push(v) => Some(q + [v])
    case Pop(v) => if q != [] && q[0] == v then Some(q[1..]) else None
    case NoData => if q == [] then Some(q) else None
    case SawEmpty(b) => if b == (q == []) then Some(q) else None
  }

  function Replay<T(==)>(q: seq<T>, observed: seq<Seen<T>>): Option<seq<T>> {
    if observed == [] then Some(q)
    else
      var before := Replay(q, observed[..|observed| - 1]);
      if before == None then None else FifoStep(before.value, observed[|observed| - 1].obs)
  }

  function NextPath<T(==)>(s: State<T>, path: seq<nat>, a: Action<T>): seq<nat> {
    if !a.Go? then path
    else match PcOf(s, a.thread)
      case PushMove(_) =>
        if s.tail in s.heap && s.heap[s.tail].next.Some? then path + [s.heap[s.tail].next.value] else path
      case PopOneMove => if path == [] then path else path[..1]
      case PopUnlink(_) => if |path| > 1 then path[..1] + path[2..] else path
      case _ => path
  }

  // ----- one step

  lemma SuccOnPath<T>(s: State<T>, path: seq<nat>)
    requires IsPath(s, path) && |path| > 1
    ensures Succ(s.heap, s.head) == Some(path[1]) && s.heap[path[1]].data.Some? && path[1] != s.head
  {
    assert path[0] in s.heap && path[1] in s.heap;
  }

  /** A step that only moves a thread between program points and takes or releases locks. */
  lemma QuietStep<T>(s: State<T>, path: seq<nat>, s': State<T>, t: nat, pc: PC<T>)
    requires Inv(s, path)
    requires s' == At(s, t, pc).(headOwner := s'.headOwner, tailOwner := s'.tailOwner, returned := s'.returned)
    requires LocksMatch(s') && OwnersKnown(s') && PcOk(s, path, pc)
    requires Linking(s) ==> Linking(s')
    ensures Inv(s', path) && Contents(s', path) == Contents(s, path)
  {
    assert IsPath(s', path);
    forall u | u in s'.pcs
      ensures PcOk(s', path, s'.pcs[u])
    {
      if u != t { assert PcOk(s, path, s.pcs[u]); }
    }
  }

  lemma LinkContents<T>(s: State<T>, path: seq<nat>, t: nat, v: T, addr: nat)
    requires Inv(s, path) && PcOf(s, t) == PushLink(v) && addr !in s.heap
    ensures Link(s, t, v, addr).To?
    ensures var s' := Link(s, t, v, addr).state;
      IsPath(s', path) && Contents(s', path) == Contents(s, path)
  {
    hide PcOk, LocksMatch;
    assert s.tail in s.heap;
    var s' := Link(s, t, v, addr).state;
    forall i | 0 <= i < |path|
      ensures path[i] in s'.heap && s'.heap[path[i]].data == s.heap[path[i]].data
      ensures i < |path| - 1 ==> s'.heap[path[i]].next == s.heap[path[i]].next
    {}
  }

  lemma LinkPcs<T>(s: State<T>, path: seq<nat>, t: nat, v: T, addr: nat)
    requires Inv(s, path) && PcOf(s, t) == PushLink(v) && addr !in s.heap
    requires Link(s, t, v, addr).To? && IsPath(Link(s, t, v, addr).state, path)
    ensures var s' := Link(s, t, v, addr).state;
      LocksMatch(s') && OwnersKnown(s') && forall u :: u in s'.pcs ==> PcOk(s', path, s'.pcs[u])
  {
    hide Contents, TailOk;
    var s' := Link(s, t, v, addr).state;
    assert forall i :: 0 <= i < |path| ==> s'.heap[path[i]].data == s.heap[path[i]].data;
    forall u | u in s'.pcs
      ensures PcOk(s', path, s'.pcs[u])
    {
      if u != t { assert PcOk(s, path, s.pcs[u]); }
    }
  }

  lemma LinkTail<T>(s: State<T>, path: seq<nat>, t: nat, v: T, addr: nat)
    requires Inv(s, path) && PcOf(s, t) == PushLink(v) && addr !in s.heap
    requires Link(s, t, v, addr).To? && IsPath(Link(s, t, v, addr).state, path)
    ensures TailOk(Link(s, t, v, addr).state, path)
  {
    hide Contents, PcOk;
  }

  lemma LinkStep<T>(s: State<T>, path: seq<nat>, t: nat, v: T, addr: nat)
    requires Inv(s, path) && PcOf(s, t) == PushLink(v) && addr !in s.heap
    ensures Link(s, t, v, addr).To? && Inv(Link(s, t, v, addr).state, path)
    ensures Contents(Link(s, t, v, addr).state, path) == Contents(s, path)
  {
    hide Link, Contents, TailOk, PcOk, LocksMatch, OwnersKnown;
    LinkContents(s, path, t, v, addr);
    LinkPcs(s, path, t, v, addr);
    LinkTail(s, path, t, v, addr);
  }

  /** The tail moves on to the node that was linked behind it. */
  lemma MovePath<T>(s: State<T>, path: seq<nat>, t: nat, v: T)
    requires Inv(s, path) && PcOf(s, t) == PushMove(v)
    ensures Succ(s.heap, s.tail).Some?
    ensures var n := s.heap[s.tail].next.value;
      var s' := At(s.(tail := n, tailOwner := None), t, Outside);
      IsPath(s', path + [n]) && TailOk(s', path + [n]) && Contents(s', path + [n]) == Contents(s, path) + [v]
  {
    hide LocksMatch, OwnersKnown;
    assert PcOk(s, path, s.pcs[t]);
    var n := s.heap[s.tail].next.value;
    assert IsPath(At(s.(tail := n, tailOwner := None), t, Outside), path + [n]);
  }

  lemma MoveStep<T>(s: State<T>, path: seq<nat>, t: nat, v: T)
    requires Inv(s, path) && PcOf(s, t) == PushMove(v)
    ensures Succ(s.heap, s.tail).Some?
    ensures var n := s.heap[s.tail].next.value;
      var s' := At(s.(tail := n, tailOwner := None), t, Outside);
      Inv(s', path + [n]) && Contents(s', path + [n]) == Contents(s, path) + [v]
  {
    hide IsPath, TailOk, Contents;
    MovePath(s, path, t, v);
    var n := s.heap[s.tail].next.value;
    var s' := At(s.(tail := n, tailOwner := None), t, Outside);
    forall u | u in s'.pcs
      ensures PcOk(s', path + [n], s'.pcs[u])
    {
      if u != t { assert PcOk(s, path, s.pcs[u]); }
    }
  }

  lemma OneMoveStep<T>(s: State<T>, path: seq<nat>, t: nat)
    requires Inv(s, path) && PcOf(s, t) == PopOneMove
    ensures |path| == 2 && Succ(s.heap, s.head) == Some(path[1]) && s.heap[path[1]].data.Some?
    ensures var v := s.heap[path[1]].data.value;
      var s' := At(s.(tail := s.head), t, PopOneRead(v));
      Inv(s', path[..1]) && Contents(s, path) == [v] + Contents(s', path[..1])
  {
    assert PcOk(s, path, s.pcs[t]);
    SuccOnPath(s, path);
    var v := s.heap[path[1]].data.value;
    var s' := At(s.(tail := s.head), t, PopOneRead(v));
    assert IsPath(s', path[..1]);
    forall u | u in s'.pcs
      ensures PcOk(s', path[..1], s'.pcs[u])
    {
      if u != t { assert PcOk(s, path, s.pcs[u]); }
    }
  }

  lemma UnlinkPath<T>(s: State<T>, path: seq<nat>, t: nat, v: T)
    requires Inv(s, path) && PcOf(s, t) == PopUnlink(v)
    ensures |path| > 2 && Unlink(s, t, v).To? && Unlink(s, t, v).obs == Pop(v)
    ensures var s' := Unlink(s, t, v).state;
      && IsPath(s', path[..1] + path[2..])
      && s'.heap.Keys == s.heap.Keys - {path[1]}
      && (forall k :: k in s'.heap ==> s'.heap[k].data == s.heap[k].data)
      && (forall k :: k in s'.heap && k != s.head ==> s'.heap[k] == s.heap[k])
  {
    assert PcOk(s, path, s.pcs[t]);
    SuccOnPath(s, path);
    var s' := Unlink(s, t, v).state;
    var path' := path[..1] + path[2..];
    forall i | 0 <= i < |path'|
      ensures path'[i] == path[if i == 0 then 0 else i + 1] && path'[i] in s'.heap
    {}
    assert s'.heap[path[0]].next == Some(path[2]);
  }

  lemma UnlinkTail<T>(s: State<T>, path: seq<nat>, t: nat, v: T)
    requires Inv(s, path) && PcOf(s, t) == PopUnlink(v)
    requires |path| > 2 && Unlink(s, t, v).To? && IsPath(Unlink(s, t, v).state, path[..1] + path[2..])
    ensures TailOk(Unlink(s, t, v).state, path[..1] + path[2..])
  {
    UnlinkPath(s, path, t, v);
    var s' := Unlink(s, t, v).state;
    var path' := path[..1] + path[2..];
    assert s'.heap[s'.tail] == s.heap[s.tail];
    forall k | k in s'.heap
      ensures k in path' || s'.heap[s'.tail].next == Some(k)
    {
      if k in path {
        var i :| 0 <= i < |path| && path[i] == k;
        assert k == path'[if i == 0 then 0 else i - 1];
      }
    }
    assert forall k :: k in path' ==> k in path;
  }

  lemma UnlinkStep<T>(s: State<T>, path: seq<nat>, t: nat, v: T)
    requires Inv(s, path) && PcOf(s, t) == PopUnlink(v)
    ensures var m := Unlink(s, t, v);
      var path' := path[..1] + path[2..];
      && |path| > 2 && m.To? && m.obs == Pop(v)
      && Inv(m.state, path') && Contents(s, path) == [v] + Contents(m.state, path')
  {
    UnlinkPath(s, path, t, v);
    UnlinkTail(s, path, t, v);
    UnlinkPcs(s, path, t, v);
    UnlinkContents(s, path, t, v);
    hide Unlink, TailOk, PcOk, IsPath, Contents, LocksMatch, OwnersKnown;
  }

  lemma UnlinkContents<T>(s: State<T>, path: seq<nat>, t: nat, v: T)
    requires Inv(s, path) && PcOf(s, t) == PopUnlink(v)
    requires |path| > 2 && Unlink(s, t, v).To? && IsPath(Unlink(s, t, v).state, path[..1] + path[2..])
    ensures Contents(s, path) == [v] + Contents(Unlink(s, t, v).state, path[..1] + path[2..])
  {
    UnlinkPath(s, path, t, v);
    assert PcOk(s, path, s.pcs[t]);
    hide Unlink, TailOk, LocksMatch;
    var path' := path[..1] + path[2..];
    assert forall i :: 0 < i < |path'| ==> path'[i] == path[i + 1];
  }

  lemma UnlinkPcs<T>(s: State<T>, path: seq<nat>, t: nat, v: T)
    requires Inv(s, path) && PcOf(s, t) == PopUnlink(v)
    requires |path| > 2 && Unlink(s, t, v).To? && IsPath(Unlink(s, t, v).state, path[..1] + path[2..])
    ensures s.heap[path[1]].data == Some(v)
    ensures var s' := Unlink(s, t, v).state;
      LocksMatch(s') && OwnersKnown(s') && forall u :: u in s'.pcs ==> PcOk(s', path[..1] + path[2..], s'.pcs[u])
  {
    UnlinkPath(s, path, t, v);
    hide TailOk, Contents;
    var s' := Unlink(s, t, v).state;
    assert PcOk(s, path, s.pcs[t]);
    forall u | u in s'.pcs
      ensures PcOk(s', path[..1] + path[2..], s'.pcs[u])
    {
      if u != t { assert PcOk(s, path, s.pcs[u]); }
    }
  }

  function PopOf<T>(obs: Label<T>): seq<T> {
    if obs.Pop? then [obs.value] else []
  }

  function PushOf<T>(obs: Label<T>): seq<T> {
    if obs.Push? then [obs.value] else []
  }

  /** What a step promises: no fault; the invariant again; an observation that a FIFO queue could make;
      and a popped value is on its way to its caller, unchanged, until it is returned. */
  ghost predicate GoodStep<T>(s: State<T>, path: seq<nat>, a: Action<T>)
    requires Inv(s, path)
  {
    match Next(s, a)
    case Blocked => true
    case Fault => false
    case To(s', obs) =>
      var path' := NextPath(s, path, a);
      && Inv(s', path')
      && FifoStep(Contents(s, path), obs) == Some(Contents(s', path'))
      && s'.returned + InFlight(s') == s.returned + InFlight(s) + PopOf(obs)
  }

  lemma CallStep<T>(s: State<T>, path: seq<nat>, a: Action<T>)
    requires Inv(s, path) && !a.Go?
    ensures GoodStep(s, path, a)
  {
    hide TailOk, IsPath, Link, Unlink, Succ, Contents;
    var m := Next(s, a);
    if m.To? {
      QuietStep(s, path, m.state, a.thread, PcOf(m.state, a.thread));
      assert InFlight(m.state) == InFlight(s);
    }
  }

  lemma LockStep<T>(s: State<T>, path: seq<nat>, a: Action<T>)
    requires Inv(s, path) && a.Go?
    requires var pc := PcOf(s, a.thread); pc.PushLock? || pc.EmptyLock? || pc.PopLockHead? || pc.PopLockTail?
    ensures GoodStep(s, path, a)
  {
    hide TailOk, Link, Unlink, Succ;
    var m := Next(s, a);
    if m.To? {
      QuietStep(s, path, m.state, a.thread, PcOf(m.state, a.thread));
      assert InFlight(m.state) == InFlight(s);
      assert s.tail == s.head <==> |path| == 1;
    }
  }

  lemma CheckStep<T>(s: State<T>, path: seq<nat>, a: Action<T>)
    requires Inv(s, path) && a.Go? && PcOf(s, a.thread).PopCheck?
    ensures GoodStep(s, path, a)
  {
    hide TailOk, Link, Unlink;
    var t := a.thread;
    var m := Next(s, a);
    assert path[0] in s.heap;
    if |path| > 1 {
      SuccOnPath(s, path);
      assert s.head != s.tail;
      assert |path| == 2 <==> path[1] == s.tail;
    }
    QuietStep(s, path, m.state, t, PcOf(m.state, t));
  }

  lemma ReadStep<T>(s: State<T>, path: seq<nat>, a: Action<T>)
    requires Inv(s, path) && a.Go? && (PcOf(s, a.thread).PopRead? || PcOf(s, a.thread).PopOneRead?)
    ensures GoodStep(s, path, a)
  {
    hide TailOk, Link, Unlink;
    var t := a.thread;
    assert PcOk(s, path, s.pcs[t]);
    if |path| > 1 { SuccOnPath(s, path); }
    var m := Next(s, a);
    QuietStep(s, path, m.state, t, PcOf(m.state, t));
  }

  lemma PushWrites<T>(s: State<T>, path: seq<nat>, a: Action<T>)
    requires Inv(s, path) && a.Go? && (PcOf(s, a.thread).PushLink? || PcOf(s, a.thread).PushMove?)
    ensures GoodStep(s, path, a)
  {
    hide Inv, Link, Contents;
    var t := a.thread;
    match PcOf(s, t)
    case PushLink(v) =>
      if a.addr !in s.heap {
        LinkStep(s, path, t, v, a.addr);
        LinkFrame(s, t, v, a.addr);
        InFlightKept(s, path, t, Link(s, t, v, a.addr).state);
      } else {
        assert Link(s, t, v, a.addr) == Blocked by { LinkBlocked(s, t, v, a.addr); }
      }
    case PushMove(v) =>
      MoveStep(s, path, t, v);
      InFlightKept(s, path, t, Next(s, a).state);
  }

  lemma LinkBlocked<T>(s: State<T>, t: nat, v: T, addr: nat)
    requires addr in s.heap
    ensures Link(s, t, v, addr) == Blocked
  {}

  lemma LinkFrame<T>(s: State<T>, t: nat, v: T, addr: nat)
    requires Link(s, t, v, addr).To?
    ensures var m := Link(s, t, v, addr);
      m.obs == Tau && m.state.headOwner == s.headOwner && m.state.pcs == s.pcs[t := PushMove(v)]
      && m.state.returned == s.returned
  {}

  /** A thread without the head lock does not touch what is being returned. */
  lemma InFlightKept<T>(s: State<T>, path: seq<nat>, t: nat, s': State<T>)
    requires Inv(s, path) && !HoldsHead(PcOf(s, t)) && s'.headOwner == s.headOwner
    requires forall u :: u != t ==> PcOf(s', u) == PcOf(s, u)
    ensures InFlight(s') == InFlight(s)
  {}

  lemma NothingInFlight<T>(s: State<T>, path: seq<nat>, t: nat)
    requires Inv(s, path) && HoldsHead(PcOf(s, t)) && !PcOf(s, t).PopOneRead?
    ensures InFlight(s) == []
  {}

  lemma PopOne<T>(s: State<T>, path: seq<nat>, a: Action<T>)
    requires Inv(s, path) && a.Go? && PcOf(s, a.thread).PopOneMove?
    ensures GoodStep(s, path, a)
  {
    hide Inv, Contents;
    var t := a.thread;
    NothingInFlight(s, path, t);
    OneMoveStep(s, path, t);
    var v := s.heap[path[1]].data.value;
    OwnsHead(s, path, t);
    assert InFlight(At(s.(tail := s.head), t, PopOneRead(v))) == [v];
  }

  lemma OwnsHead<T>(s: State<T>, path: seq<nat>, t: nat)
    requires Inv(s, path) && HoldsHead(PcOf(s, t))
    ensures s.headOwner == Some(t)
  {}

  lemma PopMany<T>(s: State<T>, path: seq<nat>, a: Action<T>)
    requires Inv(s, path) && a.Go? && PcOf(s, a.thread).PopUnlink?
    ensures GoodStep(s, path, a)
  {
    hide Inv, Unlink, Contents;
    var t := a.thread;
    var v := PcOf(s, t).value;
    NothingInFlight(s, path, t);
    UnlinkStep(s, path, t, v);
    UnlinkFrame(s, t, v);
  }

  lemma UnlinkFrame<T>(s: State<T>, t: nat, v: T)
    requires Unlink(s, t, v).To?
    ensures var s' := Unlink(s, t, v).state; s'.headOwner == None && s'.returned == s.returned + [v]
  {}

  /** Every step of every thread refines a step of the sequential FIFO queue. */
  lemma StepRefines<T>(s: State<T>, path: seq<nat>, a: Action<T>)
    requires Inv(s, path)
    ensures GoodStep(s, path, a)
  {
    hide GoodStep, Inv;
    var pc := PcOf(s, a.thread);
    if !a.Go? {
      CallStep(s, path, a);
    } else if pc.PushLock? || pc.EmptyLock? || pc.PopLockHead? || pc.PopLockTail? {
      LockStep(s, path, a);
    } else if pc.Outside? {
      IdleStep(s, path, a);
    } else if pc.PopCheck? {
      CheckStep(s, path, a);
    } else if pc.PopRead? || pc.PopOneRead? {
      ReadStep(s, path, a);
    } else if pc.PushLink? || pc.PushMove? {
      PushWrites(s, path, a);
    } else if pc.PopOneMove? {
      PopOne(s, path, a);
    } else {
      PopMany(s, path, a);
    }
  }

  lemma IdleStep<T>(s: State<T>, path: seq<nat>, a: Action<T>)
    requires Inv(s, path) && a.Go? && PcOf(s, a.thread).Outside?
    ensures GoodStep(s, path, a)
  {}

  // ----- whole runs

  datatype Execution<T> = Crashed | Ran(state: State<T>, observed: seq<Seen<T>>)

  /** Any interleaving: a list of actions of any threads; a blocked action leaves the state as it is. */
  function Execute<T(==)>(s: State<T>, actions: seq<Action<T>>): Execution<T> {
    if actions == [] then Ran(s, [])
    else
      var before := Execute(s, actions[..|actions| - 1]);
      if before.Crashed? then Crashed
      else match Next(before.state, actions[|actions| - 1])
        case Blocked => before
        case Fault => Crashed
        case To(s', obs) => Ran(s', before.observed + [Seen(actions[|actions| - 1].thread, obs)])
  }

  function Pushes<T>(observed: seq<Seen<T>>): seq<T> {
    if observed == [] then [] else Pushes(observed[..|observed| - 1]) + PushOf(observed[|observed| - 1].obs)
  }

  function Pops<T>(observed: seq<Seen<T>>): seq<T> {
    if observed == [] then [] else Pops(observed[..|observed| - 1]) + PopOf(observed[|observed| - 1].obs)
  }

  /** Every interleaving of every number of threads, from the empty queue on: no access faults, the
      observations are those of a sequential FIFO queue with the same final contents, and the values
      returned so far, with one possibly still on its way, are exactly the popped ones in order. */
  lemma {:induction false} QueueRefinesFifo<T>(head: nat, actions: seq<Action<T>>) returns (path: seq<nat>)
    ensures var e := Execute(Initial(head), actions);
      && e.Ran? && Inv(e.state, path)
      && Replay([], e.observed) == Some(Contents(e.state, path))
      && e.state.returned + InFlight(e.state) == Pops(e.observed)
    decreases |actions|
  {
    var s0: State<T> := Initial(head);
    if actions == [] {
      path := [head];
      assert Contents(s0, path) == [];
    } else {
      var front, a := actions[..|actions| - 1], actions[|actions| - 1];
      var path0 := QueueRefinesFifo(head, front);
      var e := Execute(s0, front);
      StepRefines(e.state, path0, a);
      match Next(e.state, a) {
        case Blocked => path := path0;
        case To(s', obs) =>
          path := NextPath(e.state, path0, a);
          var seen := Seen(a.thread, obs);
          assert (e.observed + [seen])[..|e.observed|] == e.observed;
          assert e.state.returned + InFlight(e.state) + PopOf(obs) == Pops(e.observed + [seen]);
      }
    }
  }

  /** On a FIFO queue, what was pushed is what was popped followed by what is still there. */
  lemma {:induction false} ReplayConserves<T>(observed: seq<Seen<T>>)
    requires Replay([], observed).Some?
    ensures Pushes(observed) == Pops(observed) + Replay([], observed).value
  {
    if observed != [] {
      var front, last := observed[..|observed| - 1], observed[|observed| - 1];
      ReplayConserves(front);
      var q := Replay([], front).value;
      if last.obs.Pop? {
        assert q == [last.obs.value] + q[1..];
        assert Pops(front) + q == Pops(front) + [last.obs.value] + q[1..];
      }
    }
  }

  /** Values come back in push order, once each: the returned ones, the one on its way back, and the
      ones still queued make up exactly the pushed ones, in order. */
  lemma PushOrder<T>(head: nat, actions: seq<Action<T>>) returns (path: seq<nat>)
    ensures var e := Execute(Initial(head), actions);
      && e.Ran? && Inv(e.state, path)
      && Pushes(e.observed) == e.state.returned + InFlight(e.state) + Contents(e.state, path)
  {
    path := QueueRefinesFifo(head, actions);
    ReplayConserves(Execute(Initial(head), actions).observed);
  }

  // ----- calls

  /** What a thread asks of the queue. */
  datatype Request<T> = AskPush(value: T) | AskPop | AskEmpty

  function Ask<T>(a: Action<T>): seq<Request<T>> {
    match a
    case CallPush(_, v) => [AskPush(v)]
    case CallPop(_) => [AskPop]
    case CallEmpty(_) => [AskEmpty]
    case Go(_, _) => []
  }

  /** The request that an observation is the effect of. */
  function Answer<T>(obs: Label<T>): seq<Request<T>> {
    match obs
    case Tau => []
    case Push(v) => [AskPush(v)]
    case Pop(_) => [AskPop]
    case NoData => [AskPop]
    case SawEmpty(_) => [AskEmpty]
  }

  /** The request a thread is working on, until it takes effect. */
  function Owed<T>(pc: PC<T>): seq<Request<T>> {
    match pc
    case Outside => []
    case PushLock(v) => [AskPush(v)]
    case PushLink(v) => [AskPush(v)]
    case PushMove(v) => [AskPush(v)]
    case PopOneRead(_) => []
    case EmptyLock => [AskEmpty]
    case _ => [AskPop]
  }

  /** A step of a thread makes a request, or lets the one it works on take effect, or leaves it pending. */
  lemma StepAnswers<T>(s: State<T>, a: Action<T>, t: nat)
    requires Next(s, a).To?
    ensures var To(s', obs) := Next(s, a);
      Owed(PcOf(s, t)) + (if a.thread == t then Ask(a) else [])
      == (if a.thread == t then Answer(obs) else []) + Owed(PcOf(s', t))
  {
    var To(s', obs) := Next(s, a);
    if a.thread != t {
      OthersStay(s, a, t);
    }
  }

  lemma OthersStay<T>(s: State<T>, a: Action<T>, t: nat)
    requires Next(s, a).To? && a.thread != t
    ensures PcOf(Next(s, a).state, t) == PcOf(s, t)
  {}

  /** The requests thread `t` has made in a run, in order: those of its calls that began. */
  function Asked<T(==)>(s: State<T>, actions: seq<Action<T>>, t: nat): seq<Request<T>> {
    if actions == [] then []
    else
      var front, a := actions[..|actions| - 1], actions[|actions| - 1];
      var before := Execute(s, front);
      Asked(s, front, t)
      + if a.thread == t && before.Ran? && Next(before.state, a).To? then Ask(a) else []
  }

  /** The requests of thread `t` that have taken effect, in order. */
  function Answered<T>(observed: seq<Seen<T>>, t: nat): seq<Request<T>> {
    if observed == [] then []
    else
      var last := observed[|observed| - 1];
      Answered(observed[..|observed| - 1], t) + if last.thread == t then Answer(last.obs) else []
  }

  /** Every call takes effect exactly once, between its beginning and its return, and those of a thread in the
      order it makes them: what a thread has asked for so far is what has taken effect, followed by what it is
      working on. */
  lemma {:induction false} CallsTakeEffectOnce<T>(head: nat, actions: seq<Action<T>>, t: nat)
    ensures var e := Execute(Initial(head), actions);
      e.Ran? && Asked(Initial(head), actions, t) == Answered(e.observed, t) + Owed(PcOf(e.state, t))
    decreases |actions|
  {
    hide Next, Owed, Ask, Answer;
    var s0: State<T> := Initial(head);
    var _ := QueueRefinesFifo(head, actions);
    if actions == [] {
      assert Owed<T>(Outside) == [] by { NothingOwed<T>(); }
    } else {
      var front, a := actions[..|actions| - 1], actions[|actions| - 1];
      CallsTakeEffectOnce(head, front, t);
      var e := Execute(s0, front);
      if Next(e.state, a).To? {
        var To(s', obs) := Next(e.state, a);
        StepAnswers(e.state, a, t);
        assert (e.observed + [Seen(a.thread, obs)])[..|e.observed|] == e.observed;
        Handover(Asked(s0, front, t), Answered(e.observed, t), Owed(PcOf(e.state, t)),
                 if a.thread == t then Ask(a) else [], if a.thread == t then Answer(obs) else [], Owed(PcOf(s', t)));
      }
    }
  }

  lemma Handover<R>(asked: seq<R>, answered: seq<R>, owed: seq<R>, ask: seq<R>, answer: seq<R>, owed': seq<R>)
    requires asked == answered + owed && owed + ask == answer + owed'
    ensures asked + ask == answered + answer + owed'
  {
    assert asked + ask == answered + (owed + ask);
    assert answered + (answer + owed') == answered + answer + owed';
  }

  lemma NothingOwed<T>()
    ensures Owed<T>(Outside) == []
  {}

  /** A thread that is not in a call can begin any. */
  lemma CallsBegin<T>(s: State<T>, a: Action<T>)
    requires !a.Go? && PcOf(s, a.thread) == Outside
    ensures Next(s, a).To?
  {}

  /** How many steps of its own a thread is from returning, at most. */
  function StepsLeft<T>(pc: PC<T>): nat {
    match pc
    case Outside => 0
    case PushLock(_) => 3
    case PushLink(_) => 2
    case PushMove(_) => 1
    case PopLockHead => 5
    case PopLockTail => 4
    case PopCheck => 3
    case PopOneMove => 2
    case PopOneRead(_) => 1
    case PopRead => 2
    case PopUnlink(_) => 1
    case EmptyLock => 1
  }

  /** Every step of a call brings it nearer to its return. */
  lemma StepsFall<T>(s: State<T>, t: nat, addr: nat)
    requires Next(s, Go(t, addr)).To?
    ensures StepsLeft(PcOf(Next(s, Go(t, addr)).state, t)) < StepsLeft(PcOf(s, t))
  {}

  /** No deadlock: while a call is going on, some call is able to step. */
  lemma SomeoneCanStep<T>(s: State<T>, path: seq<nat>, t: nat, addr: nat) returns (u: nat)
    requires Inv(s, path) && PcOf(s, t) != Outside && addr !in s.heap
    ensures PcOf(s, u) != Outside && Next(s, Go(u, addr)).To?
  {
    u := if s.tailOwner.Some? then s.tailOwner.value else if s.headOwner.Some? then s.headOwner.value else t;
    StepRefines(s, path, Go(u, addr));
    hide TailOk, PcOk, IsPath;
    assert LocksMatch(s) && OwnersKnown(s);
    LinkIsFree(s, u, addr);
  }

  lemma LinkIsFree<T>(s: State<T>, t: nat, addr: nat)
    requires addr !in s.heap
    ensures PcOf(s, t).PushLink? ==> Next(s, Go(t, addr)) != Blocked
  {}
}
