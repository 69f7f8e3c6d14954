/** TimerHeap.cpp and Timer.cpp: a binary heap of deadlines in which every timer knows its own place, and
    a map from timer ids to timers that must agree with it. */
module TimerHeap {

  /** The largest 64-bit value in the source: an id no timer is given and a place no entry has. */
  const NONE := -1

  datatype HeapEntry = HeapEntry(expire: nat, timer: RxTimer?)

  // ----- heap order, on the sequence of entries; entry 0 is a sentinel

  /** Each entry is due no earlier than its parent. */
  predicate Ordered(h: seq<HeapEntry>) {
    forall i :: 2 <= i < |h| ==> h[i / 2].expire <= h[i].expire
  }

  /** Ordered but for entry `k`, which may be due before its parent. */
  predicate OrderedButUp(h: seq<HeapEntry>, k: nat) {
    && (forall i :: 2 <= i < |h| && i != k ==> h[i / 2].expire <= h[i].expire)
    && (forall i :: 2 <= i < |h| && i / 2 == k && k >= 2 ==> h[k / 2].expire <= h[i].expire)
  }

  /** Ordered but for entry `k`, which may be due after its children. */
  predicate OrderedButDown(h: seq<HeapEntry>, k: nat) {
    && (forall i :: 2 <= i < |h| && i / 2 != k ==> h[i / 2].expire <= h[i].expire)
    && (forall i :: 2 <= i < |h| && i / 2 == k && k >= 2 ==> h[k / 2].expire <= h[i].expire)
  }

  function Swapped(h: seq<HeapEntry>, i: nat, j: nat): seq<HeapEntry>
    requires i < |h| && j < |h|
  {
    h[i := h[j]][j := h[i]]
  }

  lemma SwapUp(h: seq<HeapEntry>, k: nat)
    requires 2 <= k < |h| && OrderedButUp(h, k) && h[k].expire <= h[k / 2].expire
    ensures OrderedButUp(Swapped(h, k / 2, k), k / 2)
  {}

  lemma SwapDown(h: seq<HeapEntry>, k: nat, c: nat)
    requires 1 <= k && 2 <= c < |h| && c / 2 == k && OrderedButDown(h, k) && h[c].expire <= h[k].expire
    requires forall i :: 2 <= i < |h| && i / 2 == k ==> h[c].expire <= h[i].expire
    ensures OrderedButDown(Swapped(h, k, c), c)
  {}

  /** The child that is due first; the right one only if there is one and the left is not due earlier. */
  function MinChild(h: seq<HeapEntry>, k: nat): (c: nat)
    requires 1 <= k && 2 * k < |h|
    ensures 2 <= c < |h| && c / 2 == k
    ensures forall i :: 2 <= i < |h| && i / 2 == k ==> h[c].expire <= h[i].expire
  {
    if 2 * k + 1 > |h| - 1 || h[2 * k].expire < h[2 * k + 1].expire then 2 * k else 2 * k + 1
  }

  lemma DownDone(h: seq<HeapEntry>, k: nat)
    requires 1 <= k && OrderedButDown(h, k)
    requires 2 * k < |h| ==> h[k].expire <= h[MinChild(h, k)].expire
    ensures Ordered(h)
  {}

  /** The top is due first. */
  lemma {:induction false} TopIsDueFirst(h: seq<HeapEntry>, i: nat)
    requires Ordered(h) && 1 <= i < |h|
    ensures h[1].expire <= h[i].expire
    decreases i
  {
    if i > 1 {
      TopIsDueFirst(h, i / 2);
    }
  }

  lemma ReplacedEntry(h: seq<HeapEntry>, k: nat, e: HeapEntry)
    requires 1 <= k < |h| && Ordered(h)
    ensures k > 1 && e.expire < h[k / 2].expire ==> OrderedButUp(h[k := e], k)
    ensures k > 1 && e.expire >= h[k / 2].expire ==> OrderedButDown(h[k := e], k)
    ensures k == 1 ==> OrderedButDown(h[k := e], k)
  {}

  lemma AppendedEntry(h: seq<HeapEntry>, e: HeapEntry)
    requires Ordered(h)
    ensures OrderedButUp(h + [e], |h|)
  {}

  lemma Shortened(h: seq<HeapEntry>, n: nat)
    requires n <= |h| && Ordered(h)
    ensures Ordered(h[..n])
  {}

  // ----- deadlines by id

  /** The deadline of each id, from the timer of each id and the deadline of each timer. */
  ghost function Due(ids: map<int, RxTimer>, armed: map<RxTimer, nat>): (due: map<int, nat>)
    requires forall id :: id in ids ==> ids[id] in armed
    ensures due.Keys == ids.Keys
  {
    map id | id in ids :: armed[ids[id]]
  }

  /** Ids and timers in the heap correspond one to one, and no other timer has kept an id that is in use. */
  ghost predicate Agree(ids: map<int, RxTimer>, armed: map<RxTimer, nat>, idOf: map<RxTimer, int>, nextId: nat) {
    && (forall t :: t in armed ==> t in idOf && idOf[t] in ids && ids[idOf[t]] == t)
    && (forall id :: id in ids ==> 0 <= id < nextId && ids[id] in armed && idOf[ids[id]] == id)
    && (forall t :: t in idOf ==> idOf[t] < nextId && (idOf[t] in ids ==> t in armed))
  }

  lemma {:induction false} AgreeAdded(
    ids: map<int, RxTimer>, armed: map<RxTimer, nat>, idOf: map<RxTimer, int>, id: nat, t: RxTimer, due: nat)
    requires Agree(ids, armed, idOf, id) && t in idOf && t !in armed
    ensures Agree(ids[id := t], armed[t := due], idOf[t := id], id + 1)
    ensures id !in ids && forall k :: k in ids ==> ids[k] in armed
  {}

  lemma {:induction false} AgreeNew(
    ids: map<int, RxTimer>, armed: map<RxTimer, nat>, idOf: map<RxTimer, int>, nextId: nat, t: RxTimer)
    requires Agree(ids, armed, idOf, nextId) && t !in idOf
    ensures Agree(ids, armed, idOf[t := NONE], nextId)
  {}

  lemma {:induction false} DueAdded(ids: map<int, RxTimer>, armed: map<RxTimer, nat>, id: int, t: RxTimer, due: nat)
    requires forall k :: k in ids ==> ids[k] in armed
    requires t !in armed
    ensures Due(ids[id := t], armed[t := due]) == Due(ids, armed)[id := due]
  {
    var after, before := Due(ids[id := t], armed[t := due]), Due(ids, armed)[id := due];
    assert after.Keys == before.Keys;
    assert forall k :: k in after ==> after[k] == before[k];
  }

  lemma {:induction false} DueDropped(ids: map<int, RxTimer>, armed: map<RxTimer, nat>, id: int)
    requires forall k :: k in ids ==> ids[k] in armed
    requires id in ids && forall k :: k in ids && k != id ==> ids[k] != ids[id]
    ensures Due(ids - {id}, armed - {ids[id]}) == Due(ids, armed) - {id}
  {
    var after, before := Due(ids - {id}, armed - {ids[id]}), Due(ids, armed) - {id};
    assert after.Keys == before.Keys;
    assert forall k :: k in after ==> after[k] == before[k];
  }

  lemma {:induction false} Readded(armed: map<RxTimer, nat>, t: RxTimer, due: nat)
    ensures (armed - {t})[t := due] == armed[t := due]
  {}

  // ----- histories of firings

  datatype Firing = Firing(id: int, deadline: nat, now: nat)

  /** Deadlines fire in order, none before its time, and no clock reading is later than `clock`. */
  ghost predicate InOrder(fired: seq<Firing>, clock: nat) {
    && (forall i :: 0 <= i < |fired| ==> fired[i].deadline <= fired[i].now <= clock)
    && (forall i, j :: 0 <= i < j < |fired| ==> fired[i].deadline <= fired[j].deadline)
  }

  lemma FireNext(fired: seq<Firing>, clock: nat, next: Firing)
    requires InOrder(fired, clock) && next.deadline <= next.now <= clock
    requires fired != [] ==> fired[|fired| - 1].deadline <= next.deadline
    ensures InOrder(fired + [next], clock)
  {}

  /** When a timer was armed, by the clock reading it was armed from, and for how long. */
  datatype Arming = Arming(at: nat, duration: nat)

  /** Every arming has an id of its own. What is still to come and what has fired are such ids, each with the
      deadline that follows from its arming; none is to come again, and none has fired twice. */
  ghost predicate Explained(deadlines: map<int, nat>, fired: seq<Firing>, armings: map<int, Arming>, nextId: nat) {
    && (forall id :: id in armings ==> id < nextId)
    && (forall id :: id in deadlines ==> id in armings && deadlines[id] == armings[id].at + armings[id].duration)
    && (forall i :: 0 <= i < |fired| ==>
          && fired[i].id in armings && fired[i].id !in deadlines
          && fired[i].deadline == armings[fired[i].id].at + armings[fired[i].id].duration)
    && (forall i, j :: 0 <= i < j < |fired| ==> fired[i].id != fired[j].id)
  }

  /** The record of armings only grows. */
  ghost predicate Kept(before: map<int, Arming>, after: map<int, Arming>) {
    forall id :: id in before ==> id in after && after[id] == before[id]
  }

  lemma KeptThen(a: map<int, Arming>, b: map<int, Arming>, c: map<int, Arming>)
    requires Kept(a, b) && (Kept(b, c) || b == c)
    ensures Kept(a, c)
  {}

  lemma ExplainArming(
    deadlines: map<int, nat>, fired: seq<Firing>, armings: map<int, Arming>, nextId: nat, arming: Arming)
    requires Explained(deadlines, fired, armings, nextId)
    ensures Explained(deadlines[nextId := arming.at + arming.duration], fired, armings[nextId := arming], nextId + 1)
    ensures Kept(armings, armings[nextId := arming])
  {}

  lemma ExplainFiring(deadlines: map<int, nat>, fired: seq<Firing>, armings: map<int, Arming>, nextId: nat,
      next: Firing)
    requires Explained(deadlines, fired, armings, nextId)
    requires next.id in deadlines && next.deadline == deadlines[next.id]
    ensures Explained(deadlines - {next.id}, fired + [next], armings, nextId)
  {}

  lemma ExplainStop(deadlines: map<int, nat>, fired: seq<Firing>, armings: map<int, Arming>, nextId: nat, id: int)
    requires Explained(deadlines, fired, armings, nextId)
    ensures Explained(deadlines - {id}, fired, armings, nextId)
  {}

  /** What a callback does; `wait` is how far the clock moves before it is read. */
  datatype Act = Start(timer: RxTimer, wait: nat, milliseconds: nat, repeat: bool) | Stop(timer: RxTimer)

  /** One turn of the expiry loop: clock movement before the test, the callback, and movement after it. */
  datatype Turn = Turn(wait: nat, callback: seq<Act>, after: nat)

  datatype Mode = Mode(repeat: bool, duration: nat)

  /** What timers, callbacks and the clock can see: deadlines of armed timers, the clock, each timer's mode. */
  datatype Plan = Plan(armed: map<RxTimer, nat>, clock: nat, modes: map<RxTimer, Mode>)

  ghost function Effect(p: Plan, act: Act): Plan {
    match act
    case Start(t, wait, milliseconds, repeat) =>
      Plan(p.armed[t := p.clock + wait + milliseconds], p.clock + wait, p.modes[t := Mode(repeat, milliseconds)])
    case Stop(t) => p.(armed := p.armed - {t})
  }

  ghost function Effects(p: Plan, acts: seq<Act>): (q: Plan)
    ensures p.modes.Keys <= q.modes.Keys && p.clock <= q.clock && (acts == [] ==> q == p)
  {
    if acts == [] then p else Effect(Effects(p, acts[..|acts| - 1]), acts[|acts| - 1])
  }

  lemma NoActs(p: Plan)
    ensures Effects(p, []) == p
  {}

  lemma EffectsStep(p: Plan, acts: seq<Act>, i: nat)
    requires i < |acts|
    ensures Effects(p, acts[..i + 1]) == Effect(Effects(p, acts[..i]), acts[i])
  {
    assert acts[..i + 1][..i] == acts[..i];
  }

  /** What is to come after timer `t` has fired and its callback has run. */
  ghost function Called(p: Plan, t: RxTimer, turn: Turn): (q: Plan)
    ensures p.modes.Keys <= q.modes.Keys && p.clock <= q.clock
  {
    Effects(p.(armed := p.armed - {t}, clock := p.clock + turn.wait), turn.callback)
  }

  /** A repeating timer is armed again, from the clock and its duration as the callback left them. */
  ghost function Rearmed(p: Plan, t: RxTimer, after: nat): (q: Plan)
    requires t in p.modes
    ensures p.modes.Keys <= q.modes.Keys && p.clock <= q.clock
  {
    if p.modes[t].repeat && t !in p.armed then
      var clock := p.clock + after;
      p.(armed := p.armed[t := clock + p.modes[t].duration], clock := clock)
    else
      p
  }

  ghost function Turned(p: Plan, t: RxTimer, turn: Turn): (q: Plan)
    requires t in p.modes
    ensures p.modes.Keys <= q.modes.Keys && p.clock <= q.clock
  {
    Rearmed(Called(p, t, turn), t, turn.after)
  }

  /** One turn after another, the timers firing in the given order. */
  ghost function Turns(p: Plan, order: seq<RxTimer>, turns: seq<Turn>): (q: Plan)
    requires |order| == |turns| && forall t :: t in order ==> t in p.modes
    ensures p.modes.Keys <= q.modes.Keys && p.clock <= q.clock && (turns == [] ==> q == p)
  {
    var n := |turns| - 1;
    if n < 0 then p else Turned(Turns(p, order[..n], turns[..n]), order[n], turns[n])
  }

  /** Timer `t` is an earliest one and due when the clock has moved on by `wait`. */
  ghost predicate Fires(p: Plan, t: RxTimer, wait: nat) {
    t in p.armed && p.armed[t] <= p.clock + wait && forall u :: u in p.armed ==> p.armed[t] <= p.armed[u]
  }

  /** In each turn the timer that fires is an earliest one and due. */
  ghost predicate Firings(p: Plan, order: seq<RxTimer>, turns: seq<Turn>)
    requires |order| == |turns| && forall t :: t in order ==> t in p.modes
  {
    var n := |turns| - 1;
    n < 0 || (Firings(p, order[..n], turns[..n]) && Fires(Turns(p, order[..n], turns[..n]), order[n], turns[n].wait))
  }

  /** The callback has left its own repeating timer armed. */
  ghost predicate Stuck(p: Plan, t: RxTimer, turn: Turn)
    requires t in p.modes
  {
    Called(p, t, turn).modes[t].repeat && t in Called(p, t, turn).armed
  }

  ghost predicate LastStuck(p: Plan, order: seq<RxTimer>, turns: seq<Turn>)
    requires |order| == |turns| && forall t :: t in order ==> t in p.modes
  {
    var n := |turns| - 1;
    n >= 0 && Stuck(Turns(p, order[..n], turns[..n]), order[n], turns[n])
  }

  lemma {:induction false} TurnsStep(p: Plan, order: seq<RxTimer>, turns: seq<Turn>, t: RxTimer)
    requires |order| < |turns| && t in p.modes && forall u :: u in order ==> u in p.modes
    ensures Turns(p, order + [t], turns[..|order| + 1])
            == Turned(Turns(p, order, turns[..|order|]), t, turns[|order|])
    ensures Firings(p, order + [t], turns[..|order| + 1]) <==>
              Firings(p, order, turns[..|order|]) && Fires(Turns(p, order, turns[..|order|]), t, turns[|order|].wait)
    ensures LastStuck(p, order + [t], turns[..|order| + 1]) <==>
              Stuck(Turns(p, order, turns[..|order|]), t, turns[|order|])
  {
    hide Turned, Fires, Stuck;
    var n := |order|;
    assert turns[..n + 1][..n] == turns[..n] && (order + [t])[..n] == order;
  }

  /** How a pass stands: it can go on, it has returned, or a callback left its own repeating timer armed,
      a case the source does not provide for. */
  datatype Verdict = More | Returned | LeftArmed

  class RxTimer {
    const timerHeap: RxTimerHeap
    var id: int
    var heapIndex: int
    var duration: nat
    var isActive: bool
    var isRepeat: bool

    /** A new timer of the loop that owns `loop`. */
    constructor (loop: RxTimerHeap)
      requires loop.Valid()
      modifies loop`timers
      ensures loop.Valid() && loop.timers == old(loop.timers) + {this}
      ensures timerHeap == loop && !isActive && !isRepeat && id == NONE
      ensures loop.Armed() == old(loop.Armed())
    {
      hide RxTimerHeap.Valid, RxTimerHeap.Armed;
      timerHeap := loop;
      id, heapIndex, duration, isActive, isRepeat := NONE, NONE, 0, false, false;
      new;
      loop.Adopt(this);
    }

    method SetMode(milliseconds: nat, repeat: bool)
      requires this in timerHeap.timers
      modifies this`isRepeat, this`duration
      ensures timerHeap.Modes() == old(timerHeap.Modes())[this := Mode(repeat, milliseconds)]
      ensures isRepeat == repeat && duration == milliseconds
    {
      isRepeat := repeat;
      duration := milliseconds;
    }

    method StartTimer(wait: nat, milliseconds: nat, repeat: bool) returns (started: int)
      requires timerHeap.Valid() && this in timerHeap.timers
      modifies timerHeap, timerHeap.timers`heapIndex, this
      ensures timerHeap.Valid() && timerHeap.timers == old(timerHeap.timers)
      ensures timerHeap.fired == old(timerHeap.fired) && timerHeap.clock == old(timerHeap.clock) + wait
      ensures timerHeap.Pending() == Effect(old(timerHeap.Pending()), Act.Start(this, wait, milliseconds, repeat))
      ensures started == id && id !in old(timerHeap.Deadlines()) && id in timerHeap.Deadlines()
      ensures isActive && isRepeat == repeat && duration == milliseconds
      ensures this in timerHeap.Armed() && timerHeap.Armed()[this] == timerHeap.clock + milliseconds
      ensures timerHeap.armings == old(timerHeap.armings)[id := Arming(timerHeap.clock, milliseconds)]
      ensures Kept(old(timerHeap.armings), timerHeap.armings)
    {
      hide RxTimerHeap.Valid, RxTimerHeap.Armed, RxTimerHeap.Mapped, RxTimerHeap.Deadlines, RxTimerHeap.Modes, Kept;
      timerHeap.NextIdIsUnused();
      ghost var p := timerHeap.Pending();
      timerHeap.Tick(wait);
      var expire := timerHeap.clock + milliseconds;
      Readded(timerHeap.Armed(), this, expire);
      if isActive {
        Stop();
      }
      SetMode(milliseconds, repeat);
      timerHeap.Arm(expire, this);
      timerHeap.NextIdIsUnused();
      assert timerHeap.Armed() == p.armed[this := expire];
      assert timerHeap.Modes() == p.modes[this := Mode(repeat, milliseconds)];
      started := id;
    }

    method Stop()
      requires timerHeap.Valid() && this in timerHeap.timers
      modifies timerHeap`heap, timerHeap`idMap, timerHeap.timers`heapIndex, this`isActive
      ensures timerHeap.Valid() && !isActive
      ensures timerHeap.Pending() == Effect(old(timerHeap.Pending()), Act.Stop(this))
    {
      hide Due, Ordered, InOrder, Explained;
      hide RxTimerHeap.Armed, RxTimerHeap.Indexed, RxTimerHeap.Modes, RxTimerHeap.Mapped, RxTimerHeap.Deadlines;
      timerHeap.IdIsOwn(this);
      ExplainStop(timerHeap.Deadlines(), timerHeap.fired, timerHeap.armings, timerHeap.nextId, id);
      timerHeap.RemoveTimer(id);
      isActive := false;
      assert timerHeap.HeapOk();
      assert timerHeap.Deadlines() == old(timerHeap.Deadlines()) - {id};
    }
  }

  class RxTimerHeap {
    var nextId: nat
    var heap: seq<HeapEntry>
    var idMap: map<int, RxTimer>
    /** The last clock reading. */
    var clock: nat

    /** Every timer of this heap's event loop, armed or not. */
    ghost var timers: set<RxTimer>
    /** Every expiry so far. */
    ghost var fired: seq<Firing>
    /** Every arming so far, by id. */
    ghost var armings: map<int, Arming>

    // ----- invariants

    /** Back-indices agree with the entries. */
    ghost predicate Indexed()
      reads this`heap, this`timers, timers`heapIndex
    {
      && |heap| >= 1
      && forall i :: 1 <= i < |heap| ==>
           heap[i].timer != null && heap[i].timer in timers && heap[i].timer.heapIndex == i
    }

    ghost predicate InHeap(t: RxTimer)
      reads this`heap, t`heapIndex
    {
      1 <= t.heapIndex < |heap| && heap[t.heapIndex].timer == t
    }

    /** The timers in the heap and their deadlines. */
    ghost function Armed(): map<RxTimer, nat>
      reads this`heap, this`timers, timers`heapIndex
    {
      map t | t in timers && InHeap(t) :: heap[t.heapIndex].expire
    }

    ghost function Modes(): map<RxTimer, Mode>
      reads this`timers, timers`isRepeat, timers`duration
    {
      map t | t in timers :: Mode(t.isRepeat, t.duration)
    }

    ghost function Pending(): Plan
      reads this`heap, this`timers, this`clock, timers`heapIndex, timers`isRepeat, timers`duration
    {
      Plan(Armed(), clock, Modes())
    }

    ghost function Ids(): map<RxTimer, int>
      reads this`timers, timers`id
    {
      map t | t in timers :: t.id
    }

    /** The id map holds exactly the timers in the heap. */
    ghost predicate Mapped()
      reads this`heap, this`timers, this`idMap, this`nextId, timers`heapIndex, timers`id
    {
      Agree(idMap, Armed(), Ids(), nextId)
    }

    /** What the heap stands for: the deadline of each id. */
    ghost function Deadlines(): map<int, nat>
      requires Mapped()
      reads this`heap, this`timers, this`idMap, this`nextId, timers`heapIndex, timers`id
    {
      Due(idMap, Armed())
    }

    ghost predicate HeapOk()
      reads this`heap, this`timers, this`idMap, this`nextId, timers`heapIndex, timers`id
    {
      Indexed() && Ordered(heap) && Mapped()
    }

    /** A timer is active exactly while it is in the heap. */
    ghost predicate ClientsOk()
      reads this`heap, this`timers, timers`heapIndex, timers`isActive
    {
      forall t :: t in timers ==> t.timerHeap == this && (t.isActive <==> t in Armed())
    }

    /** Nothing still armed is due before something that has fired. */
    ghost predicate HistoryOk()
      reads this`heap, this`timers, this`clock, this`fired, timers`heapIndex
    {
      InOrder(fired, clock) && forall t :: t in Armed() && fired != [] ==> fired[|fired| - 1].deadline <= Armed()[t]
    }

    ghost predicate Valid()
      reads this`heap, this`timers, this`idMap, this`nextId, this`clock, this`fired, this`armings
      reads timers`heapIndex, timers`id, timers`isActive
    {
      HeapOk() && ClientsOk() && HistoryOk() && Explained(Deadlines(), fired, armings, nextId)
    }

    constructor ()
      ensures Valid() && Deadlines() == map[] && timers == {} && fired == [] && armings == map[]
    {
      nextId, idMap, clock := 0, map[], 0;
      heap := [HeapEntry(0xFFFF_FFFF_FFFF_FFFF, null)];
      timers, fired, armings := {}, [], map[];
    }

    /** A timer that has just been made belongs to the loop from now on. */
    ghost method Adopt(timer: RxTimer)
      requires Valid() && timer !in timers && timer.timerHeap == this
      requires timer.id == timer.heapIndex == NONE && !timer.isActive
      modifies this`timers
      ensures Valid() && timers == old(timers) + {timer} && Armed() == old(Armed())
    {
      hide Ordered, InOrder, Agree, Explained;
      AgreeNew(idMap, Armed(), Ids(), nextId, timer);
      ghost var ids := Ids();
      timers := timers + {timer};
      assert Armed() == old(Armed());
      assert Ids() == ids[timer := NONE];
    }

    /** Whatever has fired had the deadline that follows from the clock reading and the duration of its arming,
        and no arming has fired twice. */
    lemma {:induction false} FiredAsArmed()
      requires Valid()
      ensures forall i :: 0 <= i < |fired| ==>
                && fired[i].id in armings && fired[i].now >= fired[i].deadline
                && fired[i].deadline == armings[fired[i].id].at + armings[fired[i].id].duration
      ensures forall i, j :: 0 <= i < j < |fired| ==>
                fired[i].id != fired[j].id && fired[i].deadline <= fired[j].deadline
      ensures forall t :: t in Armed() ==>
                t.id in armings && Armed()[t] == armings[t.id].at + armings[t.id].duration
    {
      forall t | t in Armed()
        ensures t.id in armings && Armed()[t] == armings[t.id].at + armings[t.id].duration
      {
        OwnDeadline(t);
      }
    }

    // ----- the heap

    lemma {:induction false} TopIsArmed()
      requires Indexed() && Ordered(heap) && |heap| >= 2
      ensures heap[1].timer != null && heap[1].timer in Armed() && Armed()[heap[1].timer] == heap[1].expire
      ensures forall t :: t in Armed() ==> heap[1].expire <= Armed()[t]
    {
      forall t | t in Armed()
        ensures heap[1].expire <= Armed()[t]
      {
        TopIsDueFirst(heap, t.heapIndex);
      }
    }

    method SwapHeapEntry(i: nat, j: nat)
      requires Indexed() && 1 <= i < |heap| && 1 <= j < |heap|
      modifies this`heap, timers`heapIndex
      ensures Indexed() && heap == Swapped(old(heap), i, j)
      ensures Armed() == old(Armed())
    {
      heap := heap[i := heap[j]][j := heap[i]];
      var a, b := heap[i].timer, heap[j].timer;
      a.heapIndex, b.heapIndex := b.heapIndex, a.heapIndex;
    }

    method HeapSiftUp(start: nat)
      requires Indexed() && 1 <= start < |heap| && OrderedButUp(heap, start)
      modifies this`heap, timers`heapIndex
      ensures Indexed() && Ordered(heap) && |heap| == old(|heap|)
      ensures Armed() == old(Armed())
    {
      hide Armed;
      var index := start;
      while index > 1
        invariant 1 <= index < |heap| == old(|heap|) && Indexed() && OrderedButUp(heap, index)
        invariant Armed() == old(Armed())
        decreases index
      {
        if heap[index].expire > heap[index / 2].expire {
          break;
        }
        SwapUp(heap, index);
        SwapHeapEntry(index / 2, index);
        index := index / 2;
      }
    }

    method HeapSiftDown(start: nat)
      requires Indexed() && 1 <= start && OrderedButDown(heap, start)
      modifies this`heap, timers`heapIndex
      ensures Indexed() && Ordered(heap) && |heap| == old(|heap|)
      ensures Armed() == old(Armed())
    {
      hide Ordered, OrderedButDown, Armed;
      var index := start;
      while index * 2 < |heap|
        invariant 1 <= index && |heap| == old(|heap|) && Indexed() && OrderedButDown(heap, index)
        invariant Armed() == old(Armed())
        decreases |heap| - index
      {
        var childMin := MinChild(heap, index);
        if heap[index].expire < heap[childMin].expire {
          break;
        }
        var next := heap[childMin].timer.heapIndex;
        SwapDown(heap, index, childMin);
        SwapHeapEntry(index, childMin);
        index := next;
      }
      DownDone(heap, index);
    }

    ghost function IdsBefore(k: nat): set<int>
      requires Indexed() && k <= |heap|
      reads this`heap, this`timers, timers`heapIndex, timers`id
    {
      set i | 1 <= i < k :: heap[i].timer.id
    }

    lemma {:induction false} CountIds(k: nat)
      requires Indexed() && Mapped() && 1 <= k <= |heap|
      ensures |IdsBefore(k)| == k - 1
      decreases k
    {
      if k == 1 {
        assert IdsBefore(k) == {};
      } else {
        CountIds(k - 1);
        assert heap[k - 1].timer in Armed();
        forall i | 1 <= i < k - 1
          ensures heap[i].timer.id != heap[k - 1].timer.id
        {
          assert heap[i].timer in Armed();
        }
        assert IdsBefore(k) == IdsBefore(k - 1) + {heap[k - 1].timer.id};
      }
    }

    /** One entry for each deadline. */
    lemma {:induction false} EntryCount()
      requires HeapOk()
      ensures |Deadlines()| == |heap| - 1
    {
      CountIds(|heap|);
      forall id | id in idMap
        ensures id in IdsBefore(|heap|)
      {
        ArmedMeans(idMap[id]);
      }
      forall id | id in IdsBefore(|heap|)
        ensures id in idMap
      {
        var i :| 1 <= i < |heap| && heap[i].timer.id == id;
        assert heap[i].timer in Armed();
      }
      assert IdsBefore(|heap|) == Deadlines().Keys;
    }

    method GetTimerNum() returns (count: nat)
      requires HeapOk()
      ensures count == |Deadlines()|
    {
      EntryCount();
      count := |heap| - 1;
    }

    /** Drop the last entry. */
    method PopBack()
      requires Indexed() && |heap| >= 2
      modifies this`heap
      ensures Indexed() && heap == old(heap[..|heap| - 1])
      ensures Armed() == old(Armed()) - {old(heap[|heap| - 1].timer)}
    {
      heap := heap[..|heap| - 1];
    }

    /** Append an entry for a timer that is not in the heap. */
    method EmplaceBack(expire: nat, timer: RxTimer)
      requires Indexed() && timer in timers && timer !in Armed()
      modifies this`heap, timer`heapIndex
      ensures Indexed() && heap == old(heap) + [HeapEntry(expire, timer)]
      ensures Armed() == old(Armed())[timer := expire]
    {
      timer.heapIndex := |heap|;
      heap := heap + [HeapEntry(expire, timer)];
    }

    lemma {:induction false} IdIsOwn(t: RxTimer)
      requires Mapped() && t in timers
      ensures t.id in idMap <==> t in Armed()
      ensures t in Armed() ==> idMap[t.id] == t && t.id in Deadlines()
    {}

    lemma {:induction false} OwnDeadline(t: RxTimer)
      requires Mapped() && t in Armed()
      ensures t.id in Deadlines() && Deadlines()[t.id] == Armed()[t]
    {}

    lemma {:induction false} UnknownId(id: int)
      requires Mapped() && id !in idMap
      ensures Deadlines() - {id} == Deadlines()
    {}

    lemma {:induction false} ArmedMeans(t: RxTimer)
      requires t in Armed()
      ensures t in timers && 1 <= t.heapIndex < |heap|
      ensures heap[t.heapIndex] == HeapEntry(Armed()[t], t)
    {}

    /** Mark a timer as having no entry. */
    method Forget(timer: RxTimer)
      requires Indexed() && timer in timers && timer !in Armed()
      modifies timer`heapIndex
      ensures Indexed() && timer.heapIndex == NONE && Armed() == old(Armed())
    {
      timer.heapIndex := NONE;
    }

    method AddTimer(expire: nat, timer: RxTimer) returns (id: nat)
      requires HeapOk() && timer in timers && timer !in Armed()
      modifies this`nextId, this`idMap, this`heap, timers`heapIndex, timer`id
      ensures HeapOk() && timer.id == id == old(nextId) && nextId == id + 1
      ensures Armed() == old(Armed())[timer := expire]
      ensures id !in old(Deadlines()) && Deadlines() == old(Deadlines())[id := expire]
    {
      hide Armed, InHeap, Indexed, Ordered, OrderedButUp, Due, Agree;
      EmptyHeap();
      ghost var was, ids := Deadlines(), Ids();
      AgreeAdded(idMap, Armed(), ids, nextId, timer, expire);
      id := nextId;
      nextId := nextId + 1;
      DueAdded(idMap, Armed(), id, timer, expire);
      idMap := idMap[id := timer];
      AppendedEntry(heap, HeapEntry(expire, timer));
      EmplaceBack(expire, timer);
      timer.id := id;
      HeapSiftUp(|heap| - 1);
      assert Ids() == ids[timer := id];
      assert Deadlines() == was[id := expire];
    }

    /** Take a timer's entry out of the heap. */
    method RemoveEntry(timer: RxTimer)
      requires Indexed() && Ordered(heap) && timer in Armed()
      modifies this`heap, timers`heapIndex
      ensures Indexed() && Ordered(heap) && timer.heapIndex == NONE
      ensures Armed() == old(Armed()) - {timer}
    {
      hide Armed, InHeap, Ordered, OrderedButUp, OrderedButDown;
      ArmedMeans(timer);
      var index := timer.heapIndex;
      var last := |heap| - 1;
      Shortened(heap, last);
      if index == last {
        PopBack();
      } else {
        ReplacedEntry(heap[..last], index, heap[last]);
        SwapHeapEntry(index, last);
        PopBack();
        assert heap == old(heap[..last][index := heap[last]]);
        if index > 1 && heap[index].expire < heap[index / 2].expire {
          HeapSiftUp(index);
        } else {
          HeapSiftDown(index);
        }
      }
      Forget(timer);
    }

    method RemoveTimer(id: int)
      requires HeapOk()
      modifies this`heap, this`idMap, timers`heapIndex
      ensures HeapOk() && Deadlines() == old(Deadlines()) - {id}
      ensures Armed() == if id in old(idMap) then old(Armed()) - {old(idMap[id])} else old(Armed())
    {
      hide Armed, InHeap, Indexed, Ordered, Due;
      ghost var was := Deadlines();
      if id !in idMap {
        assert was - {id} == was by {
          UnknownId(id);
        }
        return;
      }
      DueDropped(idMap, Armed(), id);
      var timer := idMap[id];
      idMap := idMap - {id};
      RemoveEntry(timer);
      assert Deadlines() == was - {id};
    }

    /** Take the top entry out of the heap. */
    method RemoveTop()
      requires Indexed() && Ordered(heap) && |heap| >= 2
      modifies this`heap, timers`heapIndex
      ensures Indexed() && Ordered(heap)
      ensures Armed() == old(Armed()) - {old(heap[1].timer)}
    {
      hide Armed, InHeap, Ordered, OrderedButUp, OrderedButDown;
      ghost var top := heap[1].timer;
      var last := |heap| - 1;
      Shortened(heap, last);
      if last == 1 {
        PopBack();
      } else {
        ReplacedEntry(heap[..last], 1, heap[last]);
        SwapHeapEntry(1, last);
        assert heap[last].timer == top;
        PopBack();
        assert heap == old(heap[..last][1 := heap[last]]);
        HeapSiftDown(1);
      }
    }

    method PopHeapTop()
      requires HeapOk() && |heap| >= 2
      modifies this`heap, this`idMap, timers`heapIndex
      ensures HeapOk()
      ensures Armed() == old(Armed()) - {old(heap[1].timer)}
      ensures Deadlines() == old(Deadlines()) - {old(heap[1].timer.id)}
    {
      hide Armed, InHeap, Indexed, Ordered, Due;
      TopIsArmed();
      var removed := heap[1].timer.id;
      DueDropped(idMap, Armed(), removed);
      RemoveTop();
      idMap := idMap - {removed};
    }

    // ----- expiry

    lemma {:induction false} NextIdIsUnused()
      requires Valid()
      ensures Mapped() && nextId !in Deadlines()
    {}

    lemma {:induction false} EmptyHeap()
      requires Indexed()
      ensures |heap| >= 1 && (|heap| == 1 ==> Armed() == map[])
      ensures |heap| > 1 ==> heap[1].timer != null && heap[1].timer in timers
    {}

    /** Read the clock, which has moved on by `wait`. */
    method Tick(wait: nat)
      requires Valid()
      modifies this`clock
      ensures Valid() && clock == old(clock) + wait
    {
      hide HeapOk, ClientsOk, Armed, Indexed, Explained;
      clock := clock + wait;
    }

    method GetTimeoutInterval(wait: nat) returns (interval: nat)
      requires Valid()
      modifies this`clock
      ensures Valid() && clock == old(clock) + wait
      ensures Deadlines() == map[] ==> interval == 0
      ensures forall id :: id in Deadlines() && interval > 0 ==> clock + interval <= Deadlines()[id]
      ensures Deadlines() != map[] ==>
                exists id :: id in Deadlines()
                             && if interval > 0 then Deadlines()[id] == clock + interval else Deadlines()[id] <= clock
    {
      hide Explained, InOrder;
      interval := 0;
      Tick(wait);
      if |heap| > 1 {
        TopIsArmed();
        if heap[1].expire > clock {
          interval := heap[1].expire - clock;
        }
        assert Deadlines()[heap[1].timer.id] == heap[1].expire;
      } else {
        EntryCount();
      }
    }

    /** Add a timer and mark it active. */
    method Arm(expire: nat, timer: RxTimer)
      requires Valid() && timer in timers && !timer.isActive && expire == clock + timer.duration
      modifies this`nextId, this`idMap, this`heap, this`armings, timers`heapIndex, timer`id, timer`isActive
      ensures Valid() && timer.isActive && Armed() == old(Armed())[timer := expire]
      ensures timer.id == old(nextId) && timer.id in Deadlines() && timer.id < nextId
      ensures armings == old(armings)[timer.id := Arming(clock, timer.duration)] && Kept(old(armings), armings)
    {
      hide Due, Ordered, Armed, Indexed, Mapped, Explained, Kept;
      ExplainArming(Deadlines(), fired, armings, nextId, Arming(clock, timer.duration));
      armings := armings[nextId := Arming(clock, timer.duration)];
      var _ := AddTimer(expire, timer);
      timer.isActive := true;
    }

    /** Take the top out of the heap, mark its timer inactive and record that it has fired. */
    method FireTop()
      requires Valid() && |heap| > 1 && heap[1].timer != null && heap[1].expire <= clock
      modifies this`heap, this`idMap, this`fired, timers`heapIndex, heap[1].timer`isActive
      ensures Valid() && Armed() == old(Armed()) - {old(heap[1].timer)} && !old(heap[1].timer).isActive
      ensures old(heap[1].timer.id) in old(Deadlines())
      ensures fired == old(fired) + [Firing(old(heap[1].timer.id), old(heap[1].expire), clock)]
    {
      hide Due, Ordered, Armed, Indexed, InOrder, Mapped, Explained;
      TopIsArmed();
      var timer := heap[1].timer;
      EmptyHeap();
      IdIsOwn(timer);
      FireNext(fired, clock, Firing(timer.id, heap[1].expire, clock));
      ghost var next := Firing(timer.id, heap[1].expire, clock);
      assert Deadlines()[timer.id] == heap[1].expire by { OwnDeadline(timer); }
      ExplainFiring(Deadlines(), fired, armings, nextId, next);
      PopHeapTop();
      fired := fired + [next];
      timer.isActive := false;
    }

    method RunAct(act: Act)
      requires Valid() && act.timer in timers
      modifies this, timers
      ensures Valid() && timers == old(timers) && fired == old(fired) && Kept(old(armings), armings)
      ensures Pending() == Effect(old(Pending()), act)
    {
      hide Valid, Pending, Effect;
      OwnHeap(act.timer);
      if act.Start? {
        var _ := act.timer.StartTimer(act.wait, act.milliseconds, act.repeat);
      } else {
        act.timer.Stop();
      }
    }

    method RunCallback(acts: seq<Act>)
      requires Valid() && forall i :: 0 <= i < |acts| ==> acts[i].timer in timers
      modifies this, timers
      ensures Valid() && timers == old(timers) && fired == old(fired) && Kept(old(armings), armings)
      ensures Pending() == Effects(old(Pending()), acts)
    {
      hide Valid, Pending, Effect, Effects, Kept;
      NoneLost();
      NoActs(Pending());
      var i := 0;
      assert acts[..0] == [];
      while i < |acts|
        invariant 0 <= i <= |acts|
        invariant Valid() && timers == old(timers) && fired == old(fired) && Kept(old(armings), armings)
        invariant Pending() == Effects(old(Pending()), acts[..i])
      {
        ghost var before := armings;
        RunAct(acts[i]);
        KeptThen(old(armings), before, armings);
        EffectsStep(old(Pending()), acts, i);
        i := i + 1;
      }
      assert acts[..i] == acts;
    }

    lemma {:induction false} NoneLost()
      ensures Kept(armings, armings)
    {}

    lemma {:induction false} OwnHeap(t: RxTimer)
      requires Valid() && t in timers
      ensures t.timerHeap == this && (t.isActive <==> t in Armed())
    {}

    /** The end of a turn: a repeating timer is added again. */
    method Rearm(timer: RxTimer, after: nat) returns (verdict: Verdict)
      requires Valid() && timer in timers
      modifies this`nextId, this`idMap, this`heap, this`clock, this`armings
      modifies timers`heapIndex, timer`id, timer`isActive
      ensures Valid() && Pending() == Rearmed(old(Pending()), timer, after)
      ensures timer.isRepeat && timer !in old(Armed()) ==>
                && clock == old(clock) + after
                && timer in Armed() && Armed()[timer] == clock + timer.duration
                && armings == old(armings)[timer.id := Arming(clock, timer.duration)]
      ensures verdict == (if timer.isRepeat && timer in old(Armed()) then LeftArmed else More)
      ensures Kept(old(armings), armings)
    {
      hide Due, Ordered, InOrder, Armed, Indexed, Mapped, Deadlines, HistoryOk, ClientsOk, Explained;
      OwnHeap(timer);
      verdict := More;
      if timer.isRepeat {
        if timer.isActive {
          return LeftArmed;
        }
        Tick(after);
        Arm(clock + timer.duration, timer);
      }
    }

    /** One turn of the expiry loop. */
    method ExpireTop(turn: Turn) returns (verdict: Verdict, timer: RxTimer?)
      requires Valid() && forall i :: 0 <= i < |turn.callback| ==> turn.callback[i].timer in timers
      modifies this, timers
      ensures Valid() && timers == old(timers) && clock >= old(clock) && Kept(old(armings), armings)
      ensures verdict.Returned? ==>
                && fired == old(fired) && Pending() == old(Pending()).(clock := clock)
                && clock == old(clock) + (if Armed() == map[] then 0 else turn.wait)
                && forall t :: t in Armed() ==> Armed()[t] > clock
      ensures !verdict.Returned? ==>
                && |old(heap)| > 1 && timer in timers && timer == old(heap[1].timer)
                && Fires(old(Pending()), timer, turn.wait)
                && fired == old(fired) + [Firing(old(heap[1].timer.id), old(Armed())[timer], old(clock) + turn.wait)]
                && Pending() == Turned(old(Pending()), timer, turn)
                && (verdict.LeftArmed? <==> Stuck(old(Pending()), timer, turn))
    {
      hide Due, Ordered, InOrder, Armed, Indexed, Mapped, Deadlines, HistoryOk, ClientsOk, Explained, Effects,
          Rearmed, Kept;
      EmptyHeap();
      NoneLost();
      if |heap| == 1 {
        return Returned, null;
      }
      TopIsArmed();
      Tick(turn.wait);
      var due, now := heap[1].expire, clock;
      if due > now {
        return Returned, null;
      }
      timer := heap[1].timer;
      FireTop();
      RunCallback(turn.callback);
      ghost var before := armings;
      verdict := Rearm(timer, turn.after);
      KeptThen(old(armings), before, armings);
    }

    /** `turns` says what clock and callbacks do; a pass that outlasts them is cut short with `More`. The
        timers fire in the order given by `order`. */
    method CheckTimerExpiry(turns: seq<Turn>) returns (expired: nat, verdict: Verdict, ghost order: seq<RxTimer>)
      requires Valid()
      requires forall i, j :: 0 <= i < |turns| && 0 <= j < |turns[i].callback| ==> turns[i].callback[j].timer in timers
      modifies this, timers
      ensures Valid() && timers == old(timers) && Kept(old(armings), armings)
      ensures old(fired) <= fired && expired == |fired| - |old(fired)|
      ensures forall i :: |old(fired)| <= i < |fired| ==> fired[i].now >= old(clock)
      ensures expired == |order| <= |turns| && forall t :: t in order ==> t in old(Modes())
      ensures Firings(old(Pending()), order, turns[..expired])
      ensures verdict.LeftArmed? <==> LastStuck(old(Pending()), order, turns[..expired])
      ensures var q := Turns(old(Pending()), order, turns[..expired]);
        && Pending() == q.(clock := clock)
        && match verdict
           case More => expired == |turns| && q.armed != map[] && clock == q.clock
           case LeftArmed => clock == q.clock
           case Returned =>
             && (forall t :: t in q.armed ==> q.armed[t] > clock)
             && if q.armed == map[] then clock == q.clock
                else expired < |turns| && clock == q.clock + turns[expired].wait
    {
      hide Valid, Armed, Modes, Turned, Turns, Fires, Firings, Stuck, LastStuck, Kept;
      NoneLost();
      expired, verdict, order := 0, More, [];
      NoTurns(Pending());
      KnownModes();
      assert turns[..0] == [];
      while expired < |turns|
        invariant 0 <= expired <= |turns| && Valid() && timers == old(timers) && clock >= old(clock)
        invariant Kept(old(armings), armings)
        invariant old(fired) <= fired && expired == |fired| - |old(fired)|
        invariant forall k :: |old(fired)| <= k < |fired| ==> fired[k].now >= old(clock)
        invariant verdict.More? && expired == |order| && forall t :: t in order ==> t in old(Modes())
        invariant Pending() == Turns(old(Pending()), order, turns[..expired])
        invariant Firings(old(Pending()), order, turns[..expired])
        invariant !LastStuck(old(Pending()), order, turns[..expired])
      {
        var timer;
        ghost var before := armings;
        verdict, timer := ExpireTop(turns[expired]);
        KeptThen(old(armings), before, armings);
        if verdict.Returned? {
          return;
        }
        TurnsStep(old(Pending()), order, turns, timer);
        expired, order := expired + 1, order + [timer];
        if verdict.LeftArmed? {
          return;
        }
      }
      NothingArmed();
      if |heap| == 1 {
        verdict := Returned;
      }
    }

    lemma {:induction false} KnownModes()
      ensures Modes().Keys == timers
    {}

    lemma {:induction false} NothingArmed()
      requires Valid()
      ensures Armed() == map[] <==> |heap| == 1
    {
      hide Ordered, InOrder;
      EmptyHeap();
      if |heap| > 1 {
        TopIsArmed();
      }
    }
  }

  lemma NoTurns(p: Plan)
    ensures Firings(p, [], []) && !LastStuck(p, [], [])
  {}
}
