/** What Http1ProtoProcessor.cpp makes of whole streams of requests. */
module HttpDelivery {
  import opened ChainBuffer
  import opened Connection
  import opened HttpText
  import Engine = HfsmEngine
  import opened HttpMachine
  import opened HttpBoundaries
  import opened HttpChunking
  import opened HttpRoundTrip
  import opened RequestLoop
  import opened HttpPipeline
  import opened Http1Processor
  import opened Server

  /** However a stream of well-formed requests arrives, unless a delivery makes parsing overrun its bytes, and
      however often responses hold it up: once all of it is consumed the processor has seen exactly those
      requests and no parse error. */
  lemma {:induction false} DeliversRequests(p: Processor, msgs: seq<Message>)
    requires p.Valid() && p.Received() == PrintAll(msgs) && p.Unread() == "" && !p.gotCompleteReq
    requires forall i :: 0 <= i < |msgs| ==> WellFormed(msgs[i]) && msgs[i].fields != []
    ensures !p.broken && Idle(p.parser.Value(p.request)) && Merge(p.trace) == AllEvents(msgs)
  {
    hide WellFormed, Merge, ByteEvents, EventsOf;
    var rules := HttpRules(p.lib);
    assert p.conn.inputBuf.got + "" == p.conn.inputBuf.got;
    var m' := MessagesEat(p.lib, p.start, msgs);
    MergeExplode(p.lib, p.trace);
    MergeAll(msgs);
  }

  /** The delivery that completes a stream of well-formed requests does not overrun. Its requests are seen if its
      last read says that the kernel has no more for now. If it is the first delivery, that is the only way:
      requests that arrive together with the end of the connection are not seen at all. */
  method DeliverySeenExactly(p: Processor, msgs: seq<Message>, wire: string, pieces: nat -> nat, ending: ReadRc)
    returns (ok: bool, overran: bool)
    requires p.Valid() && p.conn.isOpen && ending != ReadOk && !p.gotCompleteReq && p.Unread() == ""
    requires p.Received() + wire == PrintAll(msgs)
    requires forall i :: 0 <= i < |msgs| ==> WellFormed(msgs[i]) && msgs[i].fields != []
    modifies p.Objects(), p.conn`isOpen, p.conn.inputBuf, p.conn.inputBuf.TailRaw()
    ensures !overran && p.Valid() && p.conn.isOpen == ok && (ok <==> ending == ReadBuffEmpty)
    ensures ok ==> !p.broken && Idle(p.parser.Value(p.request)) && Merge(p.trace) == AllEvents(msgs)
    ensures !ok ==> p.trace == old(p.trace)
    ensures old(p.trace) == [] && msgs != [] ==> (Merge(p.trace) == AllEvents(msgs) <==> ending == ReadBuffEmpty)
  {
    hide WellFormed, Merge, EventsOf, Idle, HttpRules, Engine.ByteRun, Processor.ParserOk, ChainBuffer.Valid;
    p.Fixed();
    EndsOutside(p, msgs);
    ok, overran := OnStreamReadable(p, wire, pieces, ending, _ => MoveOn);
    if ok && !overran {
      DeliversRequests(p, msgs);
    }
    NothingSeen(msgs);
  }

  /** A stream of well-formed requests ends neither inside a request nor with an error. */
  lemma {:induction false} EndsOutside(p: Processor, msgs: seq<Message>)
    requires p.Apart()
    requires forall i :: 0 <= i < |msgs| ==> WellFormed(msgs[i]) && msgs[i].fields != []
    ensures var r := p.Reference(PrintAll(msgs)); !r.stopped && AtStart(r.m)
  {
    hide WellFormed, HttpRules, Engine.ByteRun;
    var m' := MessagesEat(p.lib, p.start, msgs);
  }

  lemma NothingSeen(msgs: seq<Message>)
    ensures Merge([]) == [] && (msgs != [] ==> AllEvents(msgs) != [])
  {}

  /** Requests are handled one by one: those that arrive together are seen up to the first whose response is held
      up, which waits; the bytes of the ones behind it stay unread. */
  method PausesWhileHeld(p: Processor, msgs: seq<Message>, pieces: nat -> nat, replies: nat -> Reply, last: nat)
    returns (ok: bool, overran: bool)
    requires p.Valid() && p.conn.isOpen && !p.gotCompleteReq && p.Unread() == "" && Idle(p.parser.Value(p.request))
    requires forall i :: 0 <= i < |msgs| ==> WellFormed(msgs[i]) && msgs[i].fields != []
    requires last < |msgs| && replies(last) != MoveOn && forall i :: 0 <= i < last ==> replies(i) == MoveOn
    modifies p.Objects(), p.conn`isOpen, p.conn.inputBuf, p.conn.inputBuf.TailRaw()
    ensures !overran && p.Valid() && p.conn.isOpen == ok == (replies(last) == Blocked)
    ensures p.gotCompleteReq && p.Unread() == PrintAll(msgs[last + 1..])
    ensures old(p.trace) <= p.trace && Merge(p.trace[|old(p.trace)|..]) == AllEvents(msgs[..last + 1])
  {
    hide WellFormed, Merge, EventsOf, Idle, Inv, HttpRules, Engine.ByteRun, Processor.ParserOk, ChainBuffer.Valid,
        Serve;
    hide PrintAll, AllEvents, GapAfter;
    p.ValidFacts();
    var wire := PrintAll(msgs);
    ServesUntilHeld(p.lib, p.parser.Value(p.request), msgs, replies, 0, last,
                    GapAfter(p.conn.inputBuf.parts, p.conn.inputBuf.Room(), |wire|));
    ghost var before := p.trace;
    assert "" + wire == wire;
    ok, overran := OnStreamReadable(p, wire, pieces, ReadBuffEmpty, replies);
    assert p.trace[|before|..] == (before + p.trace[|before|..])[|before|..];
  }

  /** A first delivery of exactly one chunk, all of it the beginning of a request line, overruns. */
  method OneChunkOverruns(p: Processor, pieces: nat -> nat) returns (overran: bool)
    requires p.Valid() && p.Received() == p.Unread() == "" && p.conn.inputBuf.slices == []
    requires p.conn.isOpen && !p.broken && !p.gotCompleteReq
    modifies p.Objects(), p.conn`isOpen, p.conn.inputBuf, p.conn.inputBuf.TailRaw()
    ensures overran
  {
    hide Eats, HttpRules, Idle, Inv, Engine.ByteRun;
    var wire := seq(CHUNK, _ => 'G');
    LongVerb(p.lib, p.start, wire);
    var replies := (i: nat) => MoveOn;
    assert p.Received() + wire == wire && !LeavesRoom(0, |wire|);
    var ok;
    ok, overran := OnStreamReadable(p, wire, pieces, ReadBuffEmpty, replies);
    assert p.Received() == wire;
  }

  lemma LongVerb(lib: Library, m: Machine, verb: string)
    requires Inv(m) && Idle(m) && verb != "" && ' ' !in verb
    ensures var r := Engine.ByteRun(HttpRules(lib), m, verb); !r.stopped && !AtStart(r.m)
  {
    VerbEats(lib, m, verb);
  }
}
