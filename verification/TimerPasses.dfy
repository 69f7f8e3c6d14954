/** What a pass of `check_timer_expiry` (TimerHeap.cpp) does to repeating timers, and when it returns. */
module TimerPasses {
  import opened Wrappers
  import opened TimerHeap

  // ----- callbacks that act on the timer that has fired

  /** The last thing a callback does to timer `t`. */
  ghost function LastAct(acts: seq<Act>, t: RxTimer): Option<Act> {
    if acts == [] then None
    else if acts[|acts| - 1].timer == t then Some(acts[|acts| - 1])
    else LastAct(acts[..|acts| - 1], t)
  }

  /** The mode of `t` after a callback: that of the last start, or else the one it had. */
  ghost function ModeAfter(mode: Mode, acts: seq<Act>, t: RxTimer): Mode {
    if acts == [] then mode
    else
      var last := acts[|acts| - 1];
      if last.timer == t && last.Start? then Mode(last.repeat, last.milliseconds)
      else ModeAfter(mode, acts[..|acts| - 1], t)
  }

  lemma {:induction false} EffectsOn(p: Plan, acts: seq<Act>, t: RxTimer)
    requires t in p.modes
    ensures var q := Effects(p, acts);
      && q.modes[t] == ModeAfter(p.modes[t], acts, t)
      && match LastAct(acts, t)
         case None => (t in q.armed <==> t in p.armed) && (t in p.armed ==> q.armed[t] == p.armed[t])
         case Some(act) => t in q.armed <==> act.Start?
    decreases |acts|
  {
    if acts != [] {
      EffectsOn(p, acts[..|acts| - 1], t);
    }
  }

  /** Exactly when a timer that has fired is armed after its turn: its mode, as the callback left it, is to
      repeat, or the last thing the callback did to it was to start it. */
  lemma {:induction false} ArmedAfterTurn(p: Plan, t: RxTimer, turn: Turn)
    requires t in p.modes
    ensures t in Turned(p, t, turn).armed <==>
              ModeAfter(p.modes[t], turn.callback, t).repeat
              || (LastAct(turn.callback, t).Some? && LastAct(turn.callback, t).value.Start?)
  {
    hide Effects;
    EffectsOn(p.(armed := p.armed - {t}, clock := p.clock + turn.wait), turn.callback, t);
  }

  lemma {:induction false} OnlyStops(mode: Mode, acts: seq<Act>, t: RxTimer)
    requires forall i :: 0 <= i < |acts| && acts[i].timer == t ==> acts[i].Stop?
    ensures ModeAfter(mode, acts, t) == mode
    ensures LastAct(acts, t).Some? ==> LastAct(acts, t).value.Stop?
    decreases |acts|
  {
    if acts != [] {
      OnlyStops(mode, acts[..|acts| - 1], t);
    }
  }

  /** Stopping a timer in its own callback is undone if and only if the timer is set to repeat: by the
      callback's last start, or, if it only stops the timer, from before. */
  lemma {:induction false} StopInCallbackIsUndone(p: Plan, t: RxTimer, turn: Turn)
    requires t in p.modes
    requires LastAct(turn.callback, t).Some? && LastAct(turn.callback, t).value.Stop?
    ensures var q := Turned(p, t, turn);
      && (t in q.armed <==> ModeAfter(p.modes[t], turn.callback, t).repeat)
      && (t in q.armed ==> q.armed[t] == q.clock + ModeAfter(p.modes[t], turn.callback, t).duration)
    ensures (forall i :: 0 <= i < |turn.callback| && turn.callback[i].timer == t ==> turn.callback[i].Stop?) ==>
              (t in Turned(p, t, turn).armed <==> p.modes[t].repeat)
  {
    hide Effects;
    EffectsOn(p.(armed := p.armed - {t}, clock := p.clock + turn.wait), turn.callback, t);
    if forall i :: 0 <= i < |turn.callback| && turn.callback[i].timer == t ==> turn.callback[i].Stop? {
      OnlyStops(p.modes[t], turn.callback, t);
    }
  }

  // ----- repeating timers of zero duration

  ghost predicate IsDue(p: Plan, t: RxTimer) {
    t in p.armed && p.armed[t] <= p.clock
  }

  /** No callback touches timer `t`. */
  ghost predicate LeaveAlone(turns: seq<Turn>, t: RxTimer) {
    forall i :: 0 <= i < |turns| ==> LastAct(turns[i].callback, t).None?
  }

  lemma {:induction false} NoActNoMode(mode: Mode, acts: seq<Act>, t: RxTimer)
    requires LastAct(acts, t).None?
    ensures ModeAfter(mode, acts, t) == mode
    decreases |acts|
  {
    if acts != [] {
      NoActNoMode(mode, acts[..|acts| - 1], t);
    }
  }

  lemma {:induction false} StaysDueOnce(p: Plan, u: RxTimer, turn: Turn, t: RxTimer)
    requires u in p.modes && t in p.modes && p.modes[t] == Mode(true, 0) && IsDue(p, t)
    requires LastAct(turn.callback, t).None?
    ensures IsDue(Turned(p, u, turn), t) && Turned(p, u, turn).modes[t] == Mode(true, 0)
  {
    hide Effects;
    EffectsOn(p.(armed := p.armed - {u}, clock := p.clock + turn.wait), turn.callback, t);
    NoActNoMode(p.modes[t], turn.callback, t);
  }

  /** A repeating timer of zero duration that is due stays due through any number of turns, in whatever
      order timers fire, whatever the clock does and whatever callbacks do to other timers. */
  lemma {:induction false} StaysDue(p: Plan, order: seq<RxTimer>, turns: seq<Turn>, t: RxTimer)
    requires |order| == |turns| && forall u :: u in order ==> u in p.modes
    requires t in p.modes && p.modes[t] == Mode(true, 0) && IsDue(p, t) && LeaveAlone(turns, t)
    ensures var q := Turns(p, order, turns);
      IsDue(q, t) && q.modes[t] == Mode(true, 0)
    decreases |turns|
  {
    if turns != [] {
      hide Turned, IsDue;
      var n := |turns| - 1;
      StaysDue(p, order[..n], turns[..n], t);
      StaysDueOnce(Turns(p, order[..n], turns[..n]), order[n], turns[n], t);
    }
  }

  // ----- passes while the clock stands still

  /** `n` turns without callbacks while the clock stands still. */
  function Still(n: nat): (turns: seq<Turn>)
    ensures |turns| == n && forall i :: 0 <= i < n ==> turns[i] == Turn(0, [], 0)
  {
    seq(n, _ => Turn(0, [], 0))
  }

  ghost function DueNow(p: Plan): set<RxTimer> {
    set t | t in p.armed && IsDue(p, t)
  }

  /** Some due timer repeats with zero duration. */
  ghost predicate Endless(p: Plan)
    requires p.armed.Keys <= p.modes.Keys
  {
    exists t :: t in DueNow(p) && p.modes[t] == Mode(true, 0)
  }

  lemma {:induction false} StillTurn(p: Plan, t: RxTimer)
    requires p.armed.Keys <= p.modes.Keys && IsDue(p, t)
    ensures var q := Turned(p, t, Turn(0, [], 0));
      && q.clock == p.clock && q.modes == p.modes && q.armed.Keys <= q.modes.Keys
      && DueNow(q) == if p.modes[t] == Mode(true, 0) then DueNow(p) else DueNow(p) - {t}
  {
    var r := p.(armed := p.armed - {t}, clock := p.clock + 0);
    assert Effects(r, []) == r;
    assert !Stuck(p, t, Turn(0, [], 0));
  }

  /** While the clock stands still, every turn uses up one due timer, unless one of them repeats with zero
      duration. */
  lemma {:induction false} StillTurns(p: Plan, order: seq<RxTimer>)
    requires p.armed.Keys <= p.modes.Keys && !Endless(p)
    requires (forall t :: t in order ==> t in p.modes) && Firings(p, order, Still(|order|))
    ensures var q := Turns(p, order, Still(|order|));
      && q.clock == p.clock && q.modes == p.modes && q.armed.Keys <= q.modes.Keys
      && DueNow(q) <= DueNow(p) && |DueNow(q)| + |order| == |DueNow(p)|
    decreases |order|
  {
    if order != [] {
      var n := |order| - 1;
      assert Still(n + 1)[..n] == Still(n);
      StillTurns(p, order[..n]);
      var r := Turns(p, order[..n], Still(n));
      hide Turned;
      assert IsDue(r, order[n]);
      StillTurn(r, order[n]);
      assert order[n] in DueNow(r);
    }
  }

  lemma {:induction false} NeverStuckStill(p: Plan, order: seq<RxTimer>)
    requires forall t :: t in order ==> t in p.modes
    ensures !LastStuck(p, order, Still(|order|))
  {
    if order != [] {
      var n := |order| - 1;
      var r := Turns(p, order[..n], Still(|order|)[..n]);
      var fired := r.(armed := r.armed - {order[n]}, clock := r.clock + 0);
      assert Effects(fired, []) == fired;
    }
  }

  lemma {:induction false} EndlessGoesOn(p: Plan, order: seq<RxTimer>, t: RxTimer)
    requires p.armed.Keys <= p.modes.Keys && t in DueNow(p) && p.modes[t] == Mode(true, 0)
    requires forall u :: u in order ==> u in p.modes
    ensures IsDue(Turns(p, order, Still(|order|)), t)
  {
    StaysDue(p, order, Still(|order|), t);
  }

  /** Exactly when a pass returns while the clock stands still and callbacks do nothing: after some number of
      turns, if and only if no due timer repeats with zero duration; then it returns as soon as each due
      timer has fired once. Otherwise it is still going after any number of turns. */
  method StillPass(heap: RxTimerHeap, n: nat) returns (expired: nat, verdict: Verdict)
    requires heap.Valid()
    modifies heap, heap.timers
    ensures heap.Valid() && old(heap.Pending()).armed.Keys <= old(heap.Pending()).modes.Keys
    ensures Endless(old(heap.Pending())) ==> verdict == More && expired == n
    ensures !Endless(old(heap.Pending())) && n > |DueNow(old(heap.Pending()))| ==>
              verdict == Returned && expired == |DueNow(old(heap.Pending()))|
  {
    hide RxTimerHeap.Valid, RxTimerHeap.Pending, Turns, Firings, LastStuck;
    ArmedAreKnown(heap);
    ghost var p := heap.Pending();
    ghost var order;
    expired, verdict, order := heap.CheckTimerExpiry(Still(n));
    assert Still(n)[..expired] == Still(expired);
    NeverStuckStill(p, order);
    StillOutcome(p, order, heap.Pending(), n, verdict);
  }

  lemma {:induction false} ArmedAreKnown(heap: RxTimerHeap)
    ensures heap.Pending().armed.Keys <= heap.Pending().modes.Keys && heap.Pending().modes == heap.Modes()
  {}

  lemma {:induction false} StillOutcome(p: Plan, order: seq<RxTimer>, after: Plan, n: nat, verdict: Verdict)
    requires p.armed.Keys <= p.modes.Keys && |order| <= n && !verdict.LeftArmed?
    requires (forall t :: t in order ==> t in p.modes) && Firings(p, order, Still(|order|))
    requires after == Turns(p, order, Still(|order|)).(clock := after.clock)
    requires after.clock == Turns(p, order, Still(|order|)).clock
    requires verdict.More? ==> |order| == n
    requires verdict.Returned? ==> forall t :: t in after.armed ==> after.armed[t] > after.clock
    ensures Endless(p) ==> verdict == More && |order| == n
    ensures !Endless(p) && n > |DueNow(p)| ==> verdict == Returned && |order| == |DueNow(p)|
  {
    hide Turns, Firings, LastStuck;
    if Endless(p) {
      var t :| t in DueNow(p) && p.modes[t] == Mode(true, 0);
      EndlessGoesOn(p, order, t);
    } else {
      StillTurns(p, order);
      if verdict.Returned? {
        assert DueNow(after) == {};
      }
    }
  }

  /** Whatever the clock does: while callbacks leave alone a due timer that repeats with zero duration, the
      pass does not return. */
  method ZeroDurationNeverReturns(heap: RxTimerHeap, t: RxTimer, turns: seq<Turn>)
    returns (expired: nat, verdict: Verdict)
    requires heap.Valid() && t in heap.Modes() && heap.Modes()[t] == Mode(true, 0) && IsDue(heap.Pending(), t)
    requires LeaveAlone(turns, t)
    requires forall i, j :: 0 <= i < |turns| && 0 <= j < |turns[i].callback| ==>
               turns[i].callback[j].timer in heap.timers
    modifies heap, heap.timers
    ensures heap.Valid() && !verdict.Returned? && IsDue(heap.Pending(), t)
    ensures verdict.More? ==> expired == |turns|
  {
    hide RxTimerHeap.Valid, Turns, Firings, LastStuck, RxTimerHeap.Armed, RxTimerHeap.Modes;
    ghost var p := heap.Pending();
    ghost var order;
    expired, verdict, order := heap.CheckTimerExpiry(turns);
    StaysDue(p, order, turns[..expired], t);
  }

  /** That is what becomes of any timer started to repeat with duration zero. */
  method StartedWithZero(t: RxTimer, wait: nat, turns: seq<Turn>) returns (expired: nat, verdict: Verdict)
    requires t.timerHeap.Valid() && t in t.timerHeap.timers && LeaveAlone(turns, t)
    requires forall i, j :: 0 <= i < |turns| && 0 <= j < |turns[i].callback| ==>
               turns[i].callback[j].timer in t.timerHeap.timers
    modifies t.timerHeap, t.timerHeap.timers
    ensures t.timerHeap.Valid() && !verdict.Returned? && IsDue(t.timerHeap.Pending(), t)
    ensures verdict.More? ==> expired == |turns|
  {
    hide RxTimerHeap.Valid, RxTimerHeap.Armed, LeaveAlone;
    var _ := t.StartTimer(wait, 0, true);
    expired, verdict := ZeroDurationNeverReturns(t.timerHeap, t, turns);
  }
}
