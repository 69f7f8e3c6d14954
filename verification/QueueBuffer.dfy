/** The buffer hand-off of NanoLog's guaranteed logger (Buffer and QueueBuffer in NanoLog.cpp): any
    number of producers, one consumer, a switch to a new buffer whenever one is full. One step is one
    atomic operation or one access under the spin lock. Buffers are never freed while in use. */
module QueueBuffer {
  import opened Wrappers

  /** A Buffer. Call `p` of push logs line `p`. Two fields are history: `tickets` lists the calls that drew
      a slot of this buffer, in the order in which they drew it, and `counted` the slots that went into
      the counter kept behind the last slot. */
  datatype Buffer = Buffer(
    tickets: seq<nat>,
    slots: map<nat, nat>,
    written: set<nat>,     // the slots whose write state is 1
    counted: set<nat>,
    count: nat)

  const EMPTY := Buffer([], map[], {}, {}, 0)

  datatype ProducerPC =
    | Draw                              // m_write_index.fetch_add
    | Spin                              // while(m_write_index >= size)
    | Load(slot: nat)                   // m_current_write_buffer.load
    | Construct(slot: nat, b: nat)
    | Flag(slot: nat, b: nat)
    | Count(slot: nat, b: nat)
    | SetupStore                        // allocate, m_current_write_buffer.store
    | SetupPublish(b: nat)              // m_buffers.push
    | SetupReset                        // m_write_index.store(0)
    | Done

  datatype ConsumerPC = Ask | CheckFlag | TakeLine | PopBuffer

  /** History: how far the switch to the newest buffer has got. */
  datatype Phase = Filling | Stored | Published

  datatype State = State(
    size: nat,
    buffers: seq<Buffer>,               // every buffer ever allocated
    queue: seq<nat>,                    // m_buffers
    current: nat,                       // m_current_write_buffer
    writeIndex: nat,
    producers: map<nat, ProducerPC>,
    phase: Phase,
    readBuffer: Option<nat>,            // m_current_read_buffer
    readIndex: nat,
    consumer: ConsumerPC,
    popped: seq<nat>,                   // the lines try_pop handed out
    released: nat)                      // how many buffers the consumer has taken off the queue

  datatype Action = CallPush(p: nat) | StepProducer(p: nat) | StepConsumer

  function Initial(size: nat): State {
    State(size, [EMPTY], [0], 0, 0, map[], Filling, None, 0, Ask, [], 0)
  }

  // ----- steps; a step that would touch a buffer or line that is not there faults

  datatype Move = Blocked | Fault | To(state: State)

  function At(s: State, p: nat, pc: ProducerPC): State {
    s.(producers := s.producers[p := pc])
  }

  function Next(s: State, a: Action): Move {
    match a
    case CallPush(p) => if p in s.producers then Blocked else To(At(s, p, Draw))
    case StepProducer(p) => if p in s.producers then ProducerStep(s, p, s.producers[p]) else Blocked
    case StepConsumer => ConsumerStep(s)
  }

  function ProducerStep(s: State, p: nat, pc: ProducerPC): Move {
    match pc
    case Draw => if s.current < |s.buffers| then To(DrawStep(s, p)) else Fault
    case Spin => if s.writeIndex >= s.size then Blocked else To(At(s, p, Draw))
    case Load(i) => To(At(s, p, Construct(i, s.current)))
    case Construct(i, b) =>
      if b >= |s.buffers| || i in s.buffers[b].slots then Fault
      else To(At(s.(buffers := s.buffers[b := s.buffers[b].(slots := s.buffers[b].slots[i := p])]), p, Flag(i, b)))
    case Flag(i, b) =>
      if b >= |s.buffers| then Fault
      else To(At(s.(buffers := s.buffers[b := s.buffers[b].(written := s.buffers[b].written + {i})]), p, Count(i, b)))
    case Count(i, b) =>
      if b >= |s.buffers| then Fault
      else
        var old' := s.buffers[b];
        var new' := old'.(count := old'.count + 1, counted := old'.counted + {i});
        To(At(s.(buffers := s.buffers[b := new']), p, if new'.count == s.size then SetupStore else Done))
    case SetupStore =>
      var b := |s.buffers|;
      To(At(s.(buffers := s.buffers + [EMPTY], current := b, phase := Stored), p, SetupPublish(b)))
    case SetupPublish(b) => To(At(s.(queue := s.queue + [b], phase := Published), p, SetupReset))
    case SetupReset => To(At(s.(writeIndex := 0, phase := Filling), p, Done))
    case Done => Blocked
  }

  /** An index below the size is a ticket for that slot; the ticket is noted with the current buffer. */
  function DrawStep(s: State, p: nat): State
    requires s.current < |s.buffers|
  {
    var b := s.buffers[s.current];
    if s.writeIndex < s.size then
      At(s.(writeIndex := s.writeIndex + 1,
            buffers := s.buffers[s.current := b.(tickets := b.tickets + [p])]), p, Load(s.writeIndex))
    else
      At(s.(writeIndex := s.writeIndex + 1), p, Spin)
  }

  /** try_pop; where it returns false the consumer is back at `Ask` with nothing taken. */
  function ConsumerStep(s: State): Move {
    match s.consumer
    case Ask =>
      var front := if s.readBuffer.Some? then s.readBuffer else if s.queue == [] then None else Some(s.queue[0]);
      To(s.(readBuffer := front, consumer := if front == None then Ask else CheckFlag))
    case CheckFlag =>
      if s.readBuffer == None || s.readBuffer.value >= |s.buffers| then Fault
      else To(s.(consumer := if s.readIndex in s.buffers[s.readBuffer.value].written then TakeLine else Ask))
    case TakeLine =>
      if s.readBuffer == None || s.readBuffer.value >= |s.buffers|
         || s.readIndex !in s.buffers[s.readBuffer.value].slots then Fault
      else
        var s' := s.(popped := s.popped + [s.buffers[s.readBuffer.value].slots[s.readIndex]]);
        if s.readIndex + 1 == s.size then To(s'.(readIndex := 0, readBuffer := None, consumer := PopBuffer))
        else To(s'.(readIndex := s.readIndex + 1, consumer := Ask))
    case PopBuffer =>
      if s.queue == [] then Fault
      else To(s.(queue := s.queue[1..], released := s.released + 1, consumer := Ask))
  }

  // ----- the invariant

  function Upto(n: nat): (s: set<nat>)
    ensures |s| == n && forall i: nat :: i in s <==> i < n
  {
    if n == 0 then {} else Upto(n - 1) + {n - 1}
  }

  /** Slots are filled, then flagged, then counted, each with the line of its own ticket. */
  predicate BufferOk(size: nat, b: Buffer) {
    && |b.tickets| <= size
    && b.counted <= b.written <= b.slots.Keys
    && (forall i :: i in b.slots ==> i < |b.tickets| && b.slots[i] == b.tickets[i])
    && b.count == |b.counted|
  }

  predicate BuffersOk(s: State) {
    && s.size > 0 && s.buffers != [] && s.current == |s.buffers| - 1
    && (forall k :: 0 <= k < |s.buffers| ==> BufferOk(s.size, s.buffers[k]))
    && (forall k :: 0 <= k < |s.buffers| - 1 ==> s.buffers[k].count == s.size)
    && (if s.phase == Filling
        then |s.buffers[s.current].tickets| == if s.writeIndex < s.size then s.writeIndex else s.size
        else s.buffers[s.current] == EMPTY && s.writeIndex >= s.size)
  }

  predicate InSetup(pc: ProducerPC) {
    pc.SetupStore? || pc.SetupPublish? || pc.SetupReset?
  }

  predicate InSlot(pc: ProducerPC) {
    pc.Load? || pc.Construct? || pc.Flag? || pc.Count?
  }

  /** A producer with a ticket works on its own slot of the buffer the ticket belongs to. */
  predicate ProducerOk(s: State, p: nat, pc: ProducerPC)
    requires BuffersOk(s)
  {
    var b := s.buffers[s.current];
    && (InSlot(pc) ==> pc.slot < |b.tickets| && b.tickets[pc.slot] == p && pc.slot !in b.counted)
    && (match pc
        case Load(i) => i !in b.slots
        case Construct(i, k) => k == s.current && i !in b.slots
        case Flag(i, k) => k == s.current && i in b.slots && i !in b.written
        case Count(i, k) => k == s.current && i in b.written
        case SetupStore => b.count == s.size && s.phase == Filling
        case SetupPublish(k) => k == s.current && s.phase == Stored
        case SetupReset => s.phase == Published
        case _ => true)
  }

  predicate ProducersOk(s: State)
    requires BuffersOk(s)
  {
    && (forall p :: p in s.producers ==> ProducerOk(s, p, s.producers[p]))
    && (forall p, q :: p in s.producers && q in s.producers && InSetup(s.producers[p]) && InSetup(s.producers[q]) ==>
          p == q)
  }

  /** The queue holds the published buffers the consumer has not released. */
  predicate QueueOk(s: State)
    requires BuffersOk(s)
  {
    && |s.queue| + s.released == |s.buffers| - (if s.phase == Stored then 1 else 0)
    && (forall i :: 0 <= i < |s.queue| ==> s.queue[i] == s.released + i)
  }

  predicate ConsumerOk(s: State)
    requires BuffersOk(s)
  {
    && s.readIndex < s.size
    && (forall k :: 0 <= k < s.released && k < |s.buffers| ==> |s.buffers[k].tickets| == s.size)
    && (s.readIndex > 0 || s.readBuffer.Some? || s.consumer == PopBuffer ==> s.queue != [] && s.released < |s.buffers|)
    && (s.readBuffer.Some? ==> s.readBuffer == Some(s.released) && s.consumer != PopBuffer)
    && (s.consumer == CheckFlag || s.consumer == TakeLine ==> s.readBuffer.Some?)
    && (s.consumer == TakeLine ==> s.readIndex in s.buffers[s.released].written)
    && (s.consumer == PopBuffer ==> s.readIndex == 0 && |s.buffers[s.released].tickets| == s.size)
    && (s.readIndex > 0 ==> s.readIndex <= |s.buffers[s.released].tickets|)
  }

  function Tickets(buffers: seq<Buffer>): seq<nat> {
    if buffers == [] then [] else Tickets(buffers[..|buffers| - 1]) + buffers[|buffers| - 1].tickets
  }

  /** What has been taken from the buffer the consumer is reading. */
  function Partial(s: State): seq<nat> {
    if s.released < |s.buffers| then
      var t := s.buffers[s.released].tickets;
      if s.consumer == PopBuffer then t else if s.readIndex <= |t| then t[..s.readIndex] else []
    else []
  }

  predicate PoppedOk(s: State) {
    s.released <= |s.buffers| && s.popped == Tickets(s.buffers[..s.released]) + Partial(s)
  }

  predicate HasTicket(pc: ProducerPC) {
    pc != Draw && pc != Spin
  }

  /** Every call of push that got past the draw holds exactly one ticket. */
  predicate TicketOk(s: State, p: nat) {
    multiset(Tickets(s.buffers))[p] == if p in s.producers && HasTicket(s.producers[p]) then 1 else 0
  }

  ghost predicate TicketsOk(s: State) {
    forall p :: TicketOk(s, p)
  }

  ghost predicate Inv(s: State) {
    BuffersOk(s) && ProducersOk(s) && QueueOk(s) && ConsumerOk(s) && PoppedOk(s) && TicketsOk(s)
  }

  // ----- one step keeps the invariant

  lemma {:induction false} SameTickets(a: seq<Buffer>, b: seq<Buffer>)
    requires |a| == |b| && forall k :: 0 <= k < |a| ==> a[k].tickets == b[k].tickets
    ensures Tickets(a) == Tickets(b)
  {
    if a != [] {
      SameTickets(a[..|a| - 1], b[..|b| - 1]);
    }
  }

  lemma FullSet(s: set<nat>, n: nat)
    requires |s| == n && forall i :: i in s ==> i < n
    ensures s == Upto(n)
  {
    var rest := Upto(n) - s;
    assert Upto(n) == rest + s && rest !! s;
    assert |Upto(n)| == |rest| + |s|;
  }

  /** A full buffer has no producer left in any of its slots. */
  lemma FullBufferIsQuiet(s: State, p: nat)
    requires BuffersOk(s) && ProducersOk(s) && p in s.producers && InSlot(s.producers[p])
    ensures s.buffers[s.current].count < s.size && s.phase == Filling
  {
    assert ProducerOk(s, p, s.producers[p]);
    var b := s.buffers[s.current];
    assert BufferOk(s.size, b);
    if |b.counted| == s.size { FullSet(b.counted, s.size); }
    CardinalityBound(b.counted, s.size);
  }

  lemma CardinalityBound(s: set<nat>, n: nat)
    requires forall i :: i in s ==> i < n
    ensures |s| <= n
  {
    var rest := Upto(n) - s;
    assert Upto(n) == rest + s && rest !! s;
    assert |Upto(n)| == |rest| + |s|;
  }

  /** A producer in a slot changed only slot data of the current buffer. */
  predicate SlotChange(s: State, p: nat, s': State)
    requires BuffersOk(s)
  {
    && s' == s.(producers := s'.producers, buffers := s'.buffers)
    && p in s.producers && s.producers[p] != Draw && s.producers[p] != Spin
    && p in s'.producers && HasTicket(s'.producers[p]) && s'.producers == s.producers[p := s'.producers[p]]
    && |s'.buffers| == |s.buffers| && s'.buffers == s.buffers[s.current := s'.buffers[s.current]]
    && s'.buffers[s.current].tickets == s.buffers[s.current].tickets
    && s.buffers[s.current].written <= s'.buffers[s.current].written
  }

  lemma SlotChangeTickets(s: State, p: nat, s': State)
    requires BuffersOk(s) && SlotChange(s, p, s') && s.released <= |s.buffers|
    ensures Tickets(s'.buffers) == Tickets(s.buffers)
    ensures Tickets(s'.buffers[..s.released]) == Tickets(s.buffers[..s.released])
    ensures forall k :: 0 <= k < |s.buffers| ==> s'.buffers[k].tickets == s.buffers[k].tickets
    ensures forall k :: 0 <= k < |s.buffers| ==> s.buffers[k].written <= s'.buffers[k].written
  {
    assert forall k :: 0 <= k < |s.buffers| ==> s.buffers[k].tickets == s'.buffers[k].tickets;
    SameTickets(s.buffers, s'.buffers);
    SameTickets(s.buffers[..s.released], s'.buffers[..s.released]);
  }

  lemma SlotChangeConsumer(s: State, p: nat, s': State)
    requires BuffersOk(s) && QueueOk(s) && ConsumerOk(s) && SlotChange(s, p, s') && BuffersOk(s')
        && s.released <= |s.buffers|
    ensures QueueOk(s') && ConsumerOk(s')
  {
    SlotChangeTickets(s, p, s');
    hide Tickets, BufferOk;
  }

  lemma SlotChangePopped(s: State, p: nat, s': State)
    requires BuffersOk(s) && PoppedOk(s) && SlotChange(s, p, s')
    ensures PoppedOk(s')
  {
    SlotChangeTickets(s, p, s');
    hide Tickets, BufferOk;
    assert Partial(s') == Partial(s);
  }

  /** Nothing but the producers' program points and slot data changed, and `p` keeps its ticket, if any. */
  lemma SameTicketsOk(s: State, p: nat, s': State)
    requires TicketsOk(s) && Tickets(s'.buffers) == Tickets(s.buffers)
    requires p in s'.producers && s'.producers == s.producers[p := s'.producers[p]]
    requires (p in s.producers && HasTicket(s.producers[p])) <==> HasTicket(s'.producers[p])
    ensures TicketsOk(s')
  {
    hide Tickets;
    forall q ensures TicketOk(s', q) {
      assert TicketOk(s, q);
    }
  }

  lemma SlotChangeFrame(s: State, p: nat, s': State)
    requires Inv(s) && SlotChange(s, p, s') && BuffersOk(s')
    ensures QueueOk(s') && ConsumerOk(s') && PoppedOk(s') && TicketsOk(s')
  {
    SlotChangeConsumer(s, p, s');
    SlotChangePopped(s, p, s');
    SlotChangeTickets(s, p, s');
    SameTicketsOk(s, p, s');
    hide BuffersOk, ProducersOk, QueueOk, ConsumerOk, TicketsOk, Tickets;
  }

  lemma SlotChangeOthers(s: State, p: nat, s': State)
    requires Inv(s) && SlotChange(s, p, s') && BuffersOk(s') && ProducerOk(s', p, s'.producers[p])
    requires InSlot(s.producers[p]) && (InSetup(s'.producers[p]) ==> s'.buffers[s.current].count == s.size)
    requires forall i :: i != s.producers[p].slot ==>
      var b := s.buffers[s.current]; var b' := s'.buffers[s.current];
      && (i in b'.slots <==> i in b.slots) && (i in b'.written <==> i in b.written)
      && (i in b'.counted <==> i in b.counted)
    ensures ProducersOk(s')
  {
    FullBufferIsQuiet(s, p);
    assert ProducerOk(s, p, s.producers[p]);
    forall q | q in s'.producers
      ensures ProducerOk(s', q, s'.producers[q])
      ensures q != p ==> !InSetup(s'.producers[q])
    {
      if q != p {
        assert ProducerOk(s, q, s.producers[q]);
        if InSlot(s.producers[q]) {
          assert s.producers[q].slot != s.producers[p].slot;
        }
      }
    }
  }

  lemma SlotStepIsSlotChange(s: State, p: nat)
    requires BuffersOk(s) && ProducersOk(s) && p in s.producers && InSlot(s.producers[p])
    ensures var m := ProducerStep(s, p, s.producers[p]);
      && m.To? && SlotChange(s, p, m.state) && m.state.phase == s.phase
      && BufferOk(s.size, m.state.buffers[s.current])
      && (InSetup(m.state.producers[p]) ==> m.state.buffers[s.current].count == s.size)
      && forall i :: i != s.producers[p].slot ==>
           var b := s.buffers[s.current]; var b' := m.state.buffers[s.current];
           && (i in b'.slots <==> i in b.slots) && (i in b'.written <==> i in b.written)
           && (i in b'.counted <==> i in b.counted)
  {
    assert ProducerOk(s, p, s.producers[p]);
    assert BufferOk(s.size, s.buffers[s.current]);
    if s.producers[p].Count? {
      assert |s.buffers[s.current].counted + {s.producers[p].slot}| == |s.buffers[s.current].counted| + 1;
    }
  }

  lemma SlotStepBuffers(s: State, p: nat)
    requires BuffersOk(s) && ProducersOk(s) && p in s.producers && InSlot(s.producers[p])
    ensures var m := ProducerStep(s, p, s.producers[p]);
      m.To? && BuffersOk(m.state) && ProducerOk(m.state, p, m.state.producers[p])
  {
    FullBufferIsQuiet(s, p);
    SlotStepIsSlotChange(s, p);
    assert ProducerOk(s, p, s.producers[p]);
    var s' := ProducerStep(s, p, s.producers[p]).state;
    assert forall k :: 0 <= k < |s.buffers| && k != s.current ==> s'.buffers[k] == s.buffers[k];
  }

  lemma SlotStepKeepsInv(s: State, p: nat)
    requires Inv(s) && p in s.producers && InSlot(s.producers[p])
    ensures var m := ProducerStep(s, p, s.producers[p]); m.To? && Inv(m.state)
  {
    SlotStepIsSlotChange(s, p);
    SlotStepBuffers(s, p);
    var s' := ProducerStep(s, p, s.producers[p]).state;
    SlotChangeFrame(s, p, s');
    SlotChangeOthers(s, p, s');
    hide ProducerStep, BuffersOk, ProducersOk, QueueOk, ConsumerOk, PoppedOk, TicketsOk;
  }

  lemma {:induction false} TicketsPrefix(buffers: seq<Buffer>, k: nat)
    requires k < |buffers|
    ensures Tickets(buffers[..k]) + buffers[k].tickets <= Tickets(buffers)
  {
    if k == |buffers| - 1 {
    } else {
      var front := buffers[..|buffers| - 1];
      TicketsPrefix(front, k);
      assert front[..k] == buffers[..k];
    }
  }

  lemma DrawKeepsInv(s: State, p: nat)
    requires Inv(s) && p in s.producers && s.producers[p] == Draw
    ensures var m := ProducerStep(s, p, Draw); m.To? && Inv(m.state)
  {
    if s.writeIndex < s.size {
      DrawBuffers(s, p);
      DrawProducers(s, p);
      DrawPopped(s, p);
      DrawTickets(s, p);
      DrawConsumer(s, p);
    } else {
      DrawNothing(s, p);
    }
    hide BuffersOk, ProducersOk, QueueOk, ConsumerOk, TicketsOk, PoppedOk;
  }

  /** Only producer `p` moved, outside the slots and outside the setup. */
  lemma PlainMove(s: State, p: nat, s': State)
    requires Inv(s) && s' == s.(producers := s'.producers, writeIndex := s'.writeIndex)
    requires p in s'.producers && s'.producers == s.producers[p := s'.producers[p]]
    requires s'.producers[p] == Draw || s'.producers[p] == Spin
    requires p !in s.producers || s.producers[p] == Draw || s.producers[p] == Spin
    requires s'.writeIndex == s.writeIndex || s'.writeIndex >= s.writeIndex >= s.size
    ensures Inv(s')
  {
    assert BuffersOk(s');
    assert Partial(s') == Partial(s);
    SameTicketsOk(s, p, s');
    hide Tickets, BufferOk, TicketsOk;
    forall q | q in s'.producers ensures ProducerOk(s', q, s'.producers[q]) {
      if q != p { assert ProducerOk(s, q, s.producers[q]); }
    }
  }

  lemma DrawNothing(s: State, p: nat)
    requires Inv(s) && p in s.producers && s.producers[p] == Draw && s.writeIndex >= s.size
    ensures Inv(DrawStep(s, p))
  {
    PlainMove(s, p, DrawStep(s, p));
  }

  lemma DrawBuffers(s: State, p: nat)
    requires BuffersOk(s) && p in s.producers && s.writeIndex < s.size
    ensures BuffersOk(DrawStep(s, p))
  {
    assert BufferOk(s.size, s.buffers[s.current]);
  }

  lemma DrawProducers(s: State, p: nat)
    requires BuffersOk(s) && ProducersOk(s) && p in s.producers && s.producers[p] == Draw && s.writeIndex < s.size
    requires BuffersOk(DrawStep(s, p))
    ensures ProducersOk(DrawStep(s, p))
  {
    var s' := DrawStep(s, p);
    assert BufferOk(s.size, s.buffers[s.current]);
    forall q | q in s'.producers
      ensures ProducerOk(s', q, s'.producers[q])
    {
      if q != p { assert ProducerOk(s, q, s.producers[q]); }
    }
  }

  lemma DrawPopped(s: State, p: nat)
    requires BuffersOk(s) && ConsumerOk(s) && PoppedOk(s) && p in s.producers && s.writeIndex < s.size
    ensures PoppedOk(DrawStep(s, p))
  {
    hide BufferOk, Tickets;
    var s' := DrawStep(s, p);
    assert s.released < |s.buffers|;
    assert s'.buffers[..s.released] == s.buffers[..s.released];
    assert Partial(s') == Partial(s);
  }

  lemma DrawTickets(s: State, p: nat)
    requires BuffersOk(s) && TicketsOk(s) && p in s.producers && s.producers[p] == Draw && s.writeIndex < s.size
    ensures TicketsOk(DrawStep(s, p))
  {
    hide BufferOk;
    var s' := DrawStep(s, p);
    var last := |s.buffers| - 1;
    assert s'.buffers[..last] == s.buffers[..last];
    assert Tickets(s'.buffers) == Tickets(s.buffers) + [p];
    forall q ensures TicketOk(s', q) {
      hide Tickets;
      assert TicketOk(s, q);
    }
  }

  lemma DrawConsumer(s: State, p: nat)
    requires BuffersOk(s) && QueueOk(s) && ConsumerOk(s) && s.released <= |s.buffers|
    requires p in s.producers && s.writeIndex < s.size && BuffersOk(DrawStep(s, p))
    ensures QueueOk(DrawStep(s, p)) && ConsumerOk(DrawStep(s, p))
  {
    hide BufferOk;
  }

  // ----- the switch to a new buffer

  lemma StoreKeepsInv(s: State, p: nat)
    requires Inv(s) && p in s.producers && s.producers[p] == SetupStore
    ensures var m := ProducerStep(s, p, SetupStore); m.To? && Inv(m.state)
  {
    StoreBuffers(s, p);
    StoreProducers(s, p);
    StoreHistory(s, p);
    StoreConsumer(s, p);
    hide BuffersOk, ProducersOk, QueueOk, ConsumerOk, PoppedOk, TicketsOk;
  }

  lemma StoreHistory(s: State, p: nat)
    requires BuffersOk(s) && PoppedOk(s) && TicketsOk(s) && p in s.producers && s.producers[p] == SetupStore
    ensures var s' := ProducerStep(s, p, SetupStore).state; PoppedOk(s') && TicketsOk(s')
  {
    hide BufferOk;
    var s' := ProducerStep(s, p, SetupStore).state;
    assert s'.buffers[..|s.buffers|] == s.buffers;
    assert Tickets(s'.buffers) == Tickets(s.buffers) + [];
    assert s'.buffers[..s.released] == s.buffers[..s.released];
    SameTicketsOk(s, p, s');
    hide BuffersOk, TicketsOk, Tickets;
    assert Partial(s') == Partial(s);
  }

  lemma StoreConsumer(s: State, p: nat)
    requires BuffersOk(s) && ProducersOk(s) && QueueOk(s) && ConsumerOk(s) && p in s.producers
        && s.producers[p] == SetupStore
    requires BuffersOk(ProducerStep(s, p, SetupStore).state) && |s.buffers[s.current].tickets| == s.size
    ensures var s' := ProducerStep(s, p, SetupStore).state; QueueOk(s') && ConsumerOk(s')
  {
    assert ProducerOk(s, p, s.producers[p]);
    hide BufferOk, ProducersOk, ProducerOk;
  }

  lemma StoreBuffers(s: State, p: nat)
    requires BuffersOk(s) && ProducersOk(s) && p in s.producers && s.producers[p] == SetupStore
    ensures BuffersOk(ProducerStep(s, p, SetupStore).state)
    ensures |s.buffers[s.current].tickets| == s.size
  {
    assert ProducerOk(s, p, s.producers[p]);
    assert BufferOk(s.size, s.buffers[s.current]);
    CardinalityBound(s.buffers[s.current].counted, |s.buffers[s.current].tickets|);
  }

  lemma StoreProducers(s: State, p: nat)
    requires BuffersOk(s) && ProducersOk(s) && p in s.producers && s.producers[p] == SetupStore
    requires BuffersOk(ProducerStep(s, p, SetupStore).state)
    ensures ProducersOk(ProducerStep(s, p, SetupStore).state)
  {
    var s' := ProducerStep(s, p, SetupStore).state;
    assert ProducerOk(s, p, s.producers[p]);
    forall q | q in s'.producers
      ensures ProducerOk(s', q, s'.producers[q])
    {
      if q != p {
        assert ProducerOk(s, q, s.producers[q]);
        if InSlot(s.producers[q]) { FullBufferIsQuiet(s, q); }
      }
    }
  }

  lemma PublishKeepsInv(s: State, p: nat)
    requires Inv(s) && p in s.producers && (s.producers[p].SetupPublish? || s.producers[p].SetupReset?)
    ensures var m := ProducerStep(s, p, s.producers[p]); m.To? && Inv(m.state)
  {
    PublishProducers(s, p);
    PublishOthers(s, p);
    hide BuffersOk, ProducersOk, QueueOk, ConsumerOk, PoppedOk, TicketsOk;
  }

  lemma PublishProducers(s: State, p: nat)
    requires BuffersOk(s) && ProducersOk(s)
    requires p in s.producers && (s.producers[p].SetupPublish? || s.producers[p].SetupReset?)
    ensures var s' := ProducerStep(s, p, s.producers[p]).state; BuffersOk(s') && ProducersOk(s')
  {
    var s' := ProducerStep(s, p, s.producers[p]).state;
    assert ProducerOk(s, p, s.producers[p]);
    assert BuffersOk(s');
    hide BufferOk;
    forall q | q in s'.producers
      ensures ProducerOk(s', q, s'.producers[q])
    {
      if q != p { assert ProducerOk(s, q, s.producers[q]); }
    }
  }

  lemma PublishOthers(s: State, p: nat)
    requires Inv(s) && p in s.producers && (s.producers[p].SetupPublish? || s.producers[p].SetupReset?)
    requires BuffersOk(ProducerStep(s, p, s.producers[p]).state)
    ensures var s' := ProducerStep(s, p, s.producers[p]).state;
      QueueOk(s') && ConsumerOk(s') && PoppedOk(s') && TicketsOk(s')
  {
    hide Tickets, BufferOk;
    var s' := ProducerStep(s, p, s.producers[p]).state;
    assert ProducerOk(s, p, s.producers[p]);
    SameTicketsOk(s, p, s');
    assert Partial(s') == Partial(s);
    hide TicketsOk, ProducersOk, ProducerOk, Partial;
  }

  // ----- the consumer

  lemma ConsumerKeepsInv(s: State)
    requires Inv(s)
    ensures ConsumerStep(s).To? && Inv(ConsumerStep(s).state)
  {
    if s.consumer == TakeLine {
      TakeKeepsInv(s);
    } else if s.consumer == PopBuffer {
      PopKeepsInv(s);
    } else {
      var s' := ConsumerStep(s).state;
      assert Partial(s') == Partial(s);
      ConsumerKeepsProducers(s, s');
      assert s.consumer == Ask && s.readBuffer == None && s.queue != [] ==> s.queue[0] == s.released;
      hide Tickets, BufferOk;
    }
  }

  lemma ConsumerKeepsProducers(s: State, s': State)
    requires BuffersOk(s) && ProducersOk(s) && TicketsOk(s)
    requires s' == s.(queue := s'.queue, readBuffer := s'.readBuffer, readIndex := s'.readIndex,
                      consumer := s'.consumer, popped := s'.popped, released := s'.released)
    ensures BuffersOk(s') && ProducersOk(s') && TicketsOk(s')
  {
    hide Tickets, BufferOk;
    assert BuffersOk(s');
    forall q | q in s'.producers ensures ProducerOk(s', q, s'.producers[q]) {
      assert ProducerOk(s, q, s.producers[q]);
    }
    forall q ensures TicketOk(s', q) { assert TicketOk(s, q); }
  }

  lemma TakePopped(s: State)
    requires BuffersOk(s) && ConsumerOk(s) && PoppedOk(s) && s.consumer == TakeLine
    ensures ConsumerStep(s).To? && PoppedOk(ConsumerStep(s).state)
    ensures s.readIndex < |s.buffers[s.released].tickets|
  {
    var b := s.buffers[s.released];
    assert BufferOk(s.size, b);
    var s' := ConsumerStep(s).state;
    hide Tickets;
    assert b.tickets[..s.readIndex] + [b.tickets[s.readIndex]] == b.tickets[..s.readIndex + 1];
    assert s.readIndex + 1 == s.size ==> b.tickets[..s.readIndex + 1] == b.tickets;
  }

  lemma TakeKeepsInv(s: State)
    requires Inv(s) && s.consumer == TakeLine
    ensures ConsumerStep(s).To? && Inv(ConsumerStep(s).state)
  {
    TakePopped(s);
    var s' := ConsumerStep(s).state;
    ConsumerKeepsProducers(s, s');
    assert BufferOk(s.size, s.buffers[s.released]);
    hide PoppedOk, ProducersOk, TicketsOk;
  }

  lemma PopPopped(s: State)
    requires BuffersOk(s) && ConsumerOk(s) && PoppedOk(s) && s.consumer == PopBuffer
    ensures ConsumerStep(s).To? && PoppedOk(ConsumerStep(s).state)
  {
    hide BufferOk;
    var s' := ConsumerStep(s).state;
    assert s'.buffers[..s'.released][..s.released] == s.buffers[..s.released];
    assert Tickets(s'.buffers[..s'.released]) == s.popped;
    assert Partial(s') == [];
  }

  lemma PopKeepsInv(s: State)
    requires Inv(s) && s.consumer == PopBuffer
    ensures ConsumerStep(s).To? && Inv(ConsumerStep(s).state)
  {
    PopPopped(s);
    ConsumerKeepsProducers(s, ConsumerStep(s).state);
    hide PoppedOk, ProducersOk, TicketsOk, BufferOk;
  }

  lemma StepKeepsInv(s: State, a: Action)
    requires Inv(s)
    ensures !Next(s, a).Fault? && (Next(s, a).To? ==> Inv(Next(s, a).state))
  {
    hide Inv, ConsumerStep, DrawStep;
    match a
    case CallPush(p) =>
      if p !in s.producers { CallKeepsInv(s, p); }
    case StepConsumer => ConsumerKeepsInv(s);
    case StepProducer(p) =>
      if p in s.producers { ProducerKeepsInv(s, p); }
  }

  lemma CallKeepsInv(s: State, p: nat)
    requires Inv(s) && p !in s.producers
    ensures Inv(At(s, p, Draw))
  {
    PlainMove(s, p, At(s, p, Draw));
  }

  lemma ProducerKeepsInv(s: State, p: nat)
    requires Inv(s) && p in s.producers
    ensures var m := ProducerStep(s, p, s.producers[p]); !m.Fault? && (m.To? ==> Inv(m.state))
  {
    var pc := s.producers[p];
    if InSlot(pc) {
      SlotStepKeepsInv(s, p);
    } else if pc == Draw {
      DrawKeepsInv(s, p);
    } else if pc == SetupStore {
      StoreKeepsInv(s, p);
    } else if pc.SetupPublish? || pc.SetupReset? {
      PublishKeepsInv(s, p);
    } else if pc == Spin && s.writeIndex < s.size {
      PlainMove(s, p, At(s, p, Draw));
    }
  }

  // ----- whole runs

  datatype Execution = Crashed | Ran(state: State)

  function Execute(size: nat, actions: seq<Action>): Execution {
    if actions == [] then Ran(Initial(size))
    else
      var before := Execute(size, actions[..|actions| - 1]);
      if before.Crashed? then Crashed
      else match Next(before.state, actions[|actions| - 1])
        case Blocked => before
        case Fault => Crashed
        case To(s') => Ran(s')
  }

  lemma {:induction false} EveryRunKeepsInv(size: nat, actions: seq<Action>)
    requires size > 0
    ensures Execute(size, actions).Ran? && Inv(Execute(size, actions).state)
  {
    if actions == [] {
      var s := Initial(size);
      assert s.buffers[..0] == [];
      assert Tickets(s.buffers) == Tickets(s.buffers[..0]) + [];
      assert forall p :: TicketOk(s, p);
    } else {
      var front := actions[..|actions| - 1];
      EveryRunKeepsInv(size, front);
      StepKeepsInv(Execute(size, front).state, actions[|actions| - 1]);
    }
  }

  /** The guaranteed logger loses and duplicates nothing: in every interleaving nothing faults, the popped
      lines are a prefix of the tickets in ticket order across all buffer switches, and every call of push
      that has drawn its ticket occurs there exactly once. */
  lemma PoppedInTicketOrder(size: nat, actions: seq<Action>)
    requires size > 0
    ensures Execute(size, actions).Ran?
    ensures var s := Execute(size, actions).state;
      && s.popped <= Tickets(s.buffers)
      && forall p :: multiset(Tickets(s.buffers))[p] == if p in s.producers && HasTicket(s.producers[p]) then 1 else 0
  {
    EveryRunKeepsInv(size, actions);
    var s := Execute(size, actions).state;
    PoppedIsPrefix(s);
    hide Tickets;
    forall p ensures multiset(Tickets(s.buffers))[p] == if p in s.producers && HasTicket(s.producers[p]) then 1 else 0 {
      assert TicketOk(s, p);
    }
  }

  lemma PoppedIsPrefix(s: State)
    requires PoppedOk(s)
    ensures s.popped <= Tickets(s.buffers)
  {
    if s.released < |s.buffers| {
      TicketsPrefix(s.buffers, s.released);
    } else {
      assert s.buffers[..s.released] == s.buffers;
    }
  }

  /** No two calls of push ever work on the same slot, and each works on the buffer its ticket is of; the
      slot it constructs its line in has not been used before. */
  lemma SlotsAreExclusive(size: nat, actions: seq<Action>, p: nat, q: nat)
    requires size > 0 && Execute(size, actions).Ran?
    requires var s := Execute(size, actions).state;
      p in s.producers && q in s.producers && p != q && InSlot(s.producers[p]) && InSlot(s.producers[q])
    ensures var s := Execute(size, actions).state;
      && s.producers[p].slot != s.producers[q].slot
      && s.current < |s.buffers| && s.producers[p].slot < |s.buffers[s.current].tickets|
      && s.buffers[s.current].tickets[s.producers[p].slot] == p
      && (!s.producers[p].Load? ==> s.producers[p].b == s.current)
      && (s.producers[p].Construct? ==> s.producers[p].slot !in s.buffers[s.current].slots)
  {
    EveryRunKeepsInv(size, actions);
    var s := Execute(size, actions).state;
    assert ProducerOk(s, p, s.producers[p]) && ProducerOk(s, q, s.producers[q]);
  }

  // ----- nothing is lost

  /** A slot that was drawn from the current buffer is counted, or its ticket is still being worked on. */
  predicate DrawnOk(s: State) {
    s.current < |s.buffers| &&
    var b := s.buffers[s.current];
    forall i :: 0 <= i < |b.tickets| ==> i in b.counted || WorkedOn(s, b.tickets[i], i)
  }

  predicate WorkedOn(s: State, p: nat, slot: nat) {
    p in s.producers && InSlot(s.producers[p]) && s.producers[p].slot == slot
  }

  lemma ProducerKeepsDrawn(s: State, p: nat)
    requires BuffersOk(s) && ProducersOk(s) && DrawnOk(s) && p in s.producers
    requires ProducerStep(s, p, s.producers[p]).To?
    ensures DrawnOk(ProducerStep(s, p, s.producers[p]).state)
  {
    hide BufferOk;
    var pc := s.producers[p];
    var s' := ProducerStep(s, p, pc).state;
    assert ProducerOk(s, p, pc);
    var b, b' := s.buffers[s.current], s'.buffers[s'.current];
    forall i | 0 <= i < |b'.tickets|
      ensures i in b'.counted || WorkedOn(s', b'.tickets[i], i)
    {
      assert i < |b.tickets| ==> i in b.counted || WorkedOn(s, b.tickets[i], i);
    }
  }

  lemma StepKeepsDrawn(s: State, a: Action)
    requires Inv(s) && DrawnOk(s) && Next(s, a).To?
    ensures DrawnOk(Next(s, a).state)
  {
    hide ConsumerOk, PoppedOk, TicketsOk, QueueOk, BufferOk;
    if a.StepProducer? {
      ProducerKeepsDrawn(s, a.p);
    } else {
      hide ProducerStep, ProducersOk;
      var s' := Next(s, a).state;
      var b := s.buffers[s.current];
      assert s'.buffers == s.buffers && s'.current == s.current;
      forall i | 0 <= i < |b.tickets|
        ensures i in b.counted || WorkedOn(s', b.tickets[i], i)
      {
        assert i in b.counted || WorkedOn(s, b.tickets[i], i);
      }
    }
  }

  lemma {:induction false} EveryRunKeepsDrawn(size: nat, actions: seq<Action>)
    requires size > 0
    ensures Execute(size, actions).Ran? && Inv(Execute(size, actions).state) && DrawnOk(Execute(size, actions).state)
  {
    EveryRunKeepsInv(size, actions);
    if actions != [] {
      hide Inv, DrawnOk, Next;
      var front := actions[..|actions| - 1];
      EveryRunKeepsDrawn(size, front);
      var s := Execute(size, front).state;
      if Next(s, actions[|actions| - 1]).To? {
        StepKeepsDrawn(s, actions[|actions| - 1]);
      }
    }
  }

  /** The consumer is between calls, and the next call of try_pop would return false. */
  predicate TryPopFails(s: State) {
    s.consumer == Ask &&
    match if s.readBuffer.Some? then s.readBuffer else if s.queue == [] then None else Some(s.queue[0])
    case None => true
    case Some(b) => b < |s.buffers| && s.readIndex !in s.buffers[b].written
  }

  /** That is what the steps of try_pop do: from `Ask`, at most two of them lead back there with nothing popped,
      or else a line is about to be taken. */
  lemma TryPopOutcome(s: State)
    requires Inv(s) && s.consumer == Ask
    ensures ConsumerStep(s).To?
    ensures var s1 := ConsumerStep(s).state;
      if s1.consumer == Ask then TryPopFails(s) && s1.popped == s.popped
      else
        && ConsumerStep(s1).To?
        && var s2 := ConsumerStep(s1).state;
           s2.popped == s.popped && s2.consumer == (if TryPopFails(s) then Ask else TakeLine)
  {
    hide TicketsOk, ProducersOk, BufferOk, PoppedOk;
  }

  /** The line drawn for slot `i` of the current buffer is there to be popped. */
  lemma DrawnIsWritten(s: State, i: nat)
    requires BuffersOk(s) && DrawnOk(s) && forall p :: p in s.producers ==> s.producers[p] == Done
    requires i < |s.buffers[s.current].tickets|
    ensures i in s.buffers[s.current].written
  {
    var b := s.buffers[s.current];
    assert i in b.counted || WorkedOn(s, b.tickets[i], i);
  }

  /** In a buffer before the newest every slot is written. */
  lemma FullIsWritten(s: State, k: nat, i: nat)
    requires BuffersOk(s) && k < s.current && i < s.size
    ensures i in s.buffers[k].written
  {
    var b := s.buffers[k];
    assert BufferOk(s.size, b);
    FullSet(b.counted, s.size);
  }

  /** Shutting down: once every call of push has returned, a try_pop that returns false means that every line
      was popped, in ticket order. */
  lemma AllPoppedInTheEnd(size: nat, actions: seq<Action>)
    requires size > 0 && Execute(size, actions).Ran?
    requires forall p :: p in Execute(size, actions).state.producers ==>
               Execute(size, actions).state.producers[p] == Done
    requires TryPopFails(Execute(size, actions).state)
    ensures Execute(size, actions).state.popped == Tickets(Execute(size, actions).state.buffers)
  {
    EveryRunKeepsDrawn(size, actions);
    QuietIsDrained(Execute(size, actions).state);
  }

  lemma QuietIsDrained(s: State)
    requires Inv(s) && DrawnOk(s) && TryPopFails(s)
    requires forall p :: p in s.producers ==> s.producers[p] == Done
    ensures s.popped == Tickets(s.buffers)
  {
    hide TicketsOk, ProducersOk, BufferOk, DrawnOk;
    if s.released < |s.buffers| {
      var b := s.buffers[s.released];
      assert s.buffers[..s.released + 1][..s.released] == s.buffers[..s.released];
      if s.readBuffer.None? && s.queue == [] {
        assert s.phase == Stored && b == EMPTY;
        assert s.buffers[..s.released + 1] == s.buffers;
      } else {
        if s.released < s.current {
          FullIsWritten(s, s.released, s.readIndex);
        }
        assert s.released == s.current;
        if s.readIndex < |b.tickets| {
          DrawnIsWritten(s, s.readIndex);
        }
        assert s.buffers[..s.released + 1] == s.buffers;
      }
    } else {
      assert s.buffers[..s.released] == s.buffers;
    }
  }

  // ----- nobody spins for nothing

  /** While the newest buffer is full, or is being replaced, the call that has to replace it is at work. */
  ghost predicate SetupOk(s: State) {
    && s.current < |s.buffers|
    && (s.phase == Filling && s.buffers[s.current].count == s.size ==>
          exists p :: p in s.producers && s.producers[p] == SetupStore)
    && (s.phase == Stored ==> exists p :: p in s.producers && s.producers[p].SetupPublish?)
    && (s.phase == Published ==> exists p :: p in s.producers && s.producers[p] == SetupReset)
  }

  lemma ProducerKeepsSetup(s: State, p: nat)
    requires BuffersOk(s) && ProducersOk(s) && SetupOk(s) && p in s.producers
    requires ProducerStep(s, p, s.producers[p]).To?
    ensures SetupOk(ProducerStep(s, p, s.producers[p]).state)
  {
    hide BufferOk;
    var pc := s.producers[p];
    var s' := ProducerStep(s, p, pc).state;
    assert ProducerOk(s, p, pc);
    assert p in s'.producers && s'.producers == s.producers[p := s'.producers[p]];
    if q :| q in s.producers && q != p && InSetup(s.producers[q]) {
      assert q in s'.producers && s'.producers[q] == s.producers[q];
    }
  }

  lemma StepKeepsSetup(s: State, a: Action)
    requires Inv(s) && SetupOk(s) && Next(s, a).To?
    ensures SetupOk(Next(s, a).state)
  {
    hide ConsumerOk, PoppedOk, TicketsOk, QueueOk, BufferOk;
    if a.StepProducer? {
      ProducerKeepsSetup(s, a.p);
    } else {
      hide ProducerStep, ProducersOk;
      var s' := Next(s, a).state;
      assert s'.buffers == s.buffers && s'.current == s.current && s'.phase == s.phase && s'.size == s.size;
      assert forall q :: q in s.producers ==> q in s'.producers && s'.producers[q] == s.producers[q];
    }
  }

  lemma {:induction false} EveryRunKeepsSetup(size: nat, actions: seq<Action>)
    requires size > 0
    ensures Execute(size, actions).Ran? && SetupOk(Execute(size, actions).state)
  {
    EveryRunKeepsInv(size, actions);
    if actions != [] {
      hide Inv, SetupOk, Next;
      var front := actions[..|actions| - 1];
      EveryRunKeepsInv(size, front);
      EveryRunKeepsSetup(size, front);
      var s := Execute(size, front).state;
      if Next(s, actions[|actions| - 1]).To? {
        StepKeepsSetup(s, actions[|actions| - 1]);
      }
    }
  }

  /** How many steps a call of push that has a ticket has before it, at most. */
  function StepsToDone(pc: ProducerPC): nat {
    match pc
    case Load(_) => 7
    case Construct(_, _) => 6
    case Flag(_, _) => 5
    case Count(_, _) => 4
    case SetupStore => 3
    case SetupPublish(_) => 2
    case SetupReset => 1
    case Done => 0
    case Draw => 8
    case Spin => 9
  }

  /** A call can always begin; with each step it comes nearer to its end, but for drawing an index that is too
      large; and only a call that spins can be unable to step. */
  lemma PushGoesOn(s: State, p: nat)
    requires Inv(s)
    ensures p !in s.producers ==> Next(s, CallPush(p)) == To(At(s, p, Draw))
    ensures p in s.producers && s.producers[p] != Done ==>
      var pc, m := s.producers[p], Next(s, StepProducer(p));
      && (m.To? || (pc == Spin && s.writeIndex >= s.size))
      && (m.To? ==>
            && p in m.state.producers
            && (StepsToDone(m.state.producers[p]) < StepsToDone(pc) || (pc == Draw && s.writeIndex >= s.size)))
  {
    hide Inv;
    if p in s.producers && s.producers[p] != Done {
      StepKeepsInv(s, StepProducer(p));
      PushNearer(s, p);
    }
  }

  lemma PushNearer(s: State, p: nat)
    requires p in s.producers && s.producers[p] != Done && !ProducerStep(s, p, s.producers[p]).Fault?
    ensures var pc, m := s.producers[p], ProducerStep(s, p, s.producers[p]);
      && (m.To? || (pc == Spin && s.writeIndex >= s.size))
      && (m.To? ==>
            && p in m.state.producers
            && (StepsToDone(m.state.producers[p]) < StepsToDone(pc) || (pc == Draw && s.writeIndex >= s.size)))
  {}

  /** Nobody spins for nothing: in every interleaving, while a call of push spins and may not go on, some other
      call has a ticket or replaces the buffer. Such a call is able to step, and needs at most seven steps. */
  lemma SpinsForSomeone(size: nat, actions: seq<Action>) returns (q: nat)
    requires size > 0
    ensures Execute(size, actions).Ran?
    ensures var s := Execute(size, actions).state;
      s.writeIndex >= s.size ==>
        && q in s.producers && (InSlot(s.producers[q]) || InSetup(s.producers[q]))
        && Next(s, StepProducer(q)).To? && StepsToDone(s.producers[q]) <= 7
  {
    hide Next;
    EveryRunKeepsDrawn(size, actions);
    EveryRunKeepsSetup(size, actions);
    var s := Execute(size, actions).state;
    q := 0;
    if s.writeIndex >= s.size {
      q := Server(s);
      PushGoesOn(s, q);
    }
  }

  lemma Server(s: State) returns (q: nat)
    requires Inv(s) && DrawnOk(s) && SetupOk(s) && s.writeIndex >= s.size
    ensures q in s.producers && (InSlot(s.producers[q]) || InSetup(s.producers[q]))
  {
    hide TicketsOk, PoppedOk, ConsumerOk, QueueOk, ProducersOk;
    var b := s.buffers[s.current];
    if s.phase == Stored {
      q :| q in s.producers && s.producers[q].SetupPublish?;
    } else if s.phase == Published {
      q :| q in s.producers && s.producers[q] == SetupReset;
    } else if b.count == s.size {
      q :| q in s.producers && s.producers[q] == SetupStore;
    } else {
      assert BufferOk(s.size, b);
      CardinalityBound(b.counted, |b.tickets|);
      var i := Uncounted(b.counted, s.size);
      assert i in b.counted || WorkedOn(s, b.tickets[i], i);
      q := b.tickets[i];
    }
  }

  lemma {:induction false} Uncounted(counted: set<nat>, n: nat) returns (i: nat)
    requires |counted| < n
    ensures i < n && i !in counted
  {
    if forall i: nat :: i < n ==> i in counted {
      assert Upto(n) <= counted;
      SubsetSize(Upto(n), counted);
      assert false;
    }
    i :| i < n && i !in counted;
  }

  lemma SubsetSize(a: set<nat>, b: set<nat>)
    requires a <= b
    ensures |a| <= |b|
  {
    assert b == a + (b - a);
  }

  /** How often an index has been drawn since the count was last reset. */
  function Drawn(size: nat, actions: seq<Action>): nat {
    if actions == [] then 0
    else
      var front, last := actions[..|actions| - 1], actions[|actions| - 1];
      var before := Execute(size, front);
      if before.Crashed? || !last.StepProducer? || last.p !in before.state.producers then Drawn(size, front)
      else match before.state.producers[last.p]
        case Draw => Drawn(size, front) + 1
        case SetupReset => 0
        case _ => Drawn(size, front)
  }

  /** Every draw gets an index of its own, too large or not, and only the end of a switch starts over. */
  lemma {:induction false} IndexCountsDraws(size: nat, actions: seq<Action>)
    requires size > 0
    ensures Execute(size, actions).Ran? && Execute(size, actions).state.writeIndex == Drawn(size, actions)
    decreases |actions|
  {
    EveryRunKeepsInv(size, actions);
    if actions != [] {
      hide Inv;
      var front, last := actions[..|actions| - 1], actions[|actions| - 1];
      EveryRunKeepsInv(size, front);
      IndexCountsDraws(size, front);
      IndexStep(Execute(size, front).state, last);
    }
  }

  lemma IndexStep(s: State, a: Action)
    ensures var m := Next(s, a);
      m.To? ==>
        m.state.writeIndex ==
          if !a.StepProducer? || a.p !in s.producers then s.writeIndex
          else match s.producers[a.p]
            case Draw => s.writeIndex + 1
            case SetupReset => 0
            case _ => s.writeIndex
    ensures Next(s, a).Blocked? ==>
      !a.StepProducer? || a.p !in s.producers || (s.producers[a.p] != Draw && s.producers[a.p] != SetupReset)
  {}
}
