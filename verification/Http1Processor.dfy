/** Http1ProtoProcessor.cpp: the loop that takes requests out of a connection's input buffer, pausing
    while a response is still being worked on. */
module Http1Processor {
  import opened Sequences
  import opened ByteParts
  import opened ChainBuffer
  import opened Connection
  import opened HttpText
  import Engine = HfsmEngine
  import opened HttpMachine
  import opened HttpBoundaries
  import opened HttpParserObjects
  import opened RequestLoop
  import ReadIterator

  /** After a delivery of `n` bytes the input ends in an empty slice: the bytes filled the last slice exactly,
      or there were none and it ended in one before. */
  ghost predicate GapAfter(parts: seq<string>, room: nat, n: nat) {
    !LeavesRoom(room, n) || (n == 0 && !NonEmpty(parts))
  }

  class Processor {
    const lib: Library
    const parser: HttpParser
    const request: HttpRequest
    const conn: RxConnection
    var gotCompleteReq: bool

    /** Every event ever emitted, and whether a parse error was reported. */
    ghost var trace: seq<Event>
    ghost var broken: bool

    ghost const start: Machine

    ghost function Objects(): set<object>
    {
      {this, request} + parser.Repr()
    }

    /** The bytes received so far, of which the chain has given up the first ones. */
    ghost function Received(): string
      reads conn.inputBuf`put
    {
      conn.inputBuf.put
    }

    ghost function Unread(): string
      reads conn.inputBuf`parts
    {
      conn.inputBuf.Contents()
    }

    /** What the parser would do with some bytes fed one at a time. */
    ghost function Reference(bytes: string): Engine.Run<Machine, Event>
    {
      Engine.ByteRun(HttpRules(lib), start, bytes)
    }

    /** The bytes received end inside a request. */
    ghost predicate EndsInside()
      reads conn.inputBuf`put
    {
      var r := Reference(Received());
      !r.stopped && !AtStart(r.m)
    }

    /** Bytes are taken from the front of a chain in which only the last slice may be empty. */
    ghost predicate InputOk()
      reads conn.inputBuf, conn.inputBuf.Repr
    {
      var input := conn.inputBuf;
      input.Valid() && input.CanAppend() && Ready(input.parts, input.Room())
    }

    /** The objects are different ones, and the parser started at the start of a request. */
    ghost predicate Apart()
    {
      request !in parser.Repr() && this !in parser.Repr() && Inv(start) && Idle(start)
    }

    /** Unless a parse error was reported, the events so far and the parser state are those of the consumed
        bytes alone, however they arrived and however often parsing was paused. A finished request stays in
        place until it is answered. A parse error is reported only where the byte-at-a-time run fails too. */
    ghost predicate ParserOk()
      reads this, Objects(), conn.inputBuf
    {
      && Apart() && Inv(parser.Value(request)) && LineClear(parser.Value(request))
      && (!broken ==>
            var m := parser.Value(request);
            Engine.Same(HttpRules(lib), Reference(conn.inputBuf.got),
                        Engine.Run(if gotCompleteReq then Cleared(m) else m, trace, false)))
      && (broken ==> Reference(conn.inputBuf.put).stopped)
    }

    ghost predicate Valid()
      reads this, Objects(), conn.inputBuf, conn.inputBuf.Repr
    {
      InputOk() && ParserOk()
    }

    constructor (lib: Library)
      ensures Valid() && fresh(Objects()) && fresh(conn.inputBuf) && fresh(conn.inputBuf.Repr)
      ensures Received() == Unread() == "" && conn.inputBuf.slices == []
      ensures trace == [] && !broken && !gotCompleteReq && conn.isOpen
    {
      hide HttpRules, Processor.ParserOk, Engine.Same, Engine.ByteRun, ChainBuffer.Valid;
      var p := new HttpParser();
      var r := new HttpRequest();
      var c := new RxConnection();
      this.lib, parser, request, conn := lib, p, r, c;
      gotCompleteReq := false;
      trace, broken := [], false;
      start := p.Value(r);
      new;
      StartsOk();
      PrepareForNextReq();
    }

    lemma {:induction false} StartsOk()
      requires request !in parser.Repr() && this !in parser.Repr() && conn.inputBuf.got == ""
      requires trace == [] && !broken && !gotCompleteReq
      requires start == parser.Value(request) && Inv(start) && Idle(start)
      ensures ParserOk()
    {
      hide HttpRules;
    }

    method PrepareForNextReq()
      requires Valid() && (gotCompleteReq || request.Value() == CLEARED)
      modifies this`gotCompleteReq, request
      ensures Valid() && !gotCompleteReq
      ensures AtStart(parser.Value(request)) == old(AtStart(parser.Value(request)))
      ensures parser.Value(request) == Cleared(old(parser.Value(request)))
    {
      hide Engine.Same, Engine.ByteRun, HttpRules, Idle, ChainBuffer.Valid, Ready;
      request.Clear();
      gotCompleteReq := false;
    }

    /** `recv` of the connection, seen from the processor. */
    method Receive(wire: string, pieces: nat -> nat, ending: ReadRc) returns (code: ReadRc)
      requires Valid() && ending != ReadOk
      modifies conn.inputBuf, conn.inputBuf.TailRaw()
      ensures Valid() && code == ending && conn.inputBuf.got == old(conn.inputBuf.got)
      ensures Received() == old(Received()) + wire && Unread() == old(Unread()) + wire
      ensures old(conn.inputBuf.Room()) >= 0
      ensures NonEmpty(conn.inputBuf.parts) <==> !GapAfter(old(conn.inputBuf.parts), old(conn.inputBuf.Room()), |wire|)
    {
      hide Engine.Same, Engine.ByteRun, HttpRules, Inv, Idle, ChainBuffer.Valid, Ready, NonEmpty, LeavesRoom;
      var length;
      code, length := conn.Recv(wire, pieces, ending);
      MoreReceived(wire, old(conn.inputBuf.put));
    }

    lemma {:induction false} MoreReceived(wire: string, before: string)
      requires conn.inputBuf.put == before + wire
      ensures Reference(before).stopped ==> Reference(conn.inputBuf.put).stopped
    {
      Engine.ByteRunConcat(HttpRules(lib), start, before, wire);
    }

    /** The loop has ended as `s` says, with the events `before` it. */
    ghost predicate ServedAs(s: Served, before: seq<Event>, err: bool, overran: bool)
      reads this, Objects(), conn.inputBuf`parts
    {
      && overran == s.overran
      && (!overran ==>
            && err == s.err && gotCompleteReq == s.waiting && trace == before + s.events
            && Unread() == s.rest && parser.Value(request) == s.m)
    }

    /** `resume`: the response moved on, so parsing may continue with what is still buffered. */
    method Resume(reply: Reply, replies: nat -> Reply) returns (err: bool, overran: bool)
      requires Valid()
      modifies Objects(), conn.inputBuf`slices, conn.inputBuf`parts, conn.inputBuf`got
      ensures !overran ==>
                && Valid() && old(trace) <= trace
                && (old(gotCompleteReq) && reply == MoveOn && !err && !gotCompleteReq ==> Unread() == "")
      ensures overran ==> old(gotCompleteReq) && reply == MoveOn && !NonEmpty(old(conn.inputBuf.parts))
      ensures overran && !broken ==> EndsInside()
      ensures old(gotCompleteReq) && reply == MoveOn && !overran && !err && !gotCompleteReq && !broken
              && old(Unread()) != "" && !NonEmpty(old(conn.inputBuf.parts)) ==>
                AtStart(Reference(Received()).m)
      ensures broken ==> Reference(Received()).stopped
      ensures Inv(old(parser.Value(request)))
      ensures if old(gotCompleteReq) && reply == MoveOn then
                ServedAs(Serve(lib, Cleared(old(parser.Value(request))), old(Unread()), replies, 0,
                               !NonEmpty(old(conn.inputBuf.parts))), old(trace), err, overran)
              else
                && err == (reply == Failed) && !overran && gotCompleteReq == old(gotCompleteReq) && trace == old(trace)
                && Unread() == old(Unread()) && parser.Value(request) == old(parser.Value(request))
    {
      hide Engine.Same, Engine.ByteRun, HttpRules, Idle, Processor.InputOk, Processor.ParserOk, NonEmpty, AtStart;
      hide Serve;
      Fixed();
      err, overran := reply == Failed, false;
      if !err && gotCompleteReq && reply == MoveOn {
        PrepareForNextReq();
        err, overran := ExtractAndHandleRequest(replies);
      }
    }

    /** `extract_and_handle_request`: `replies(i)` is what the response side says after the i-th call of
        `parse`. It ends with an error, with a request waiting for its response, with no input left, or by
        running on into an empty slice. */
    method ExtractAndHandleRequest(replies: nat -> Reply) returns (err: bool, overran: bool)
      requires Valid()
      modifies Objects(), conn.inputBuf`slices, conn.inputBuf`parts, conn.inputBuf`got
      ensures !overran ==> Valid() && old(trace) <= trace && (!err && !gotCompleteReq ==> Unread() == "")
      ensures !overran && old(Unread()) != "" && !old(gotCompleteReq) ==> |Unread()| < |old(Unread())|
      ensures overran ==> !NonEmpty(old(conn.inputBuf.parts)) && old(Unread()) != "" && !old(gotCompleteReq)
      ensures overran && !broken ==> EndsInside()
      ensures !overran && !err && !gotCompleteReq && !broken && old(Unread()) != ""
              && !NonEmpty(old(conn.inputBuf.parts)) ==>
                AtStart(Reference(Received()).m)
      ensures broken ==> Reference(Received()).stopped
      ensures (forall i :: replies(i) == MoveOn) ==> !err && (!old(gotCompleteReq) && !overran ==> !gotCompleteReq)
      ensures Inv(old(parser.Value(request)))
      ensures if old(gotCompleteReq) then
                && !err && !overran && gotCompleteReq && trace == old(trace)
                && Unread() == old(Unread()) && parser.Value(request) == old(parser.Value(request))
              else
                ServedAs(Serve(lib, old(parser.Value(request)), old(Unread()), replies, 0,
                               !NonEmpty(old(conn.inputBuf.parts))), old(trace), err, overran)
    {
      hide Engine.Same, Engine.ByteRun, HttpRules, Inv, Idle, Processor.InputOk, Processor.ParserOk, NonEmpty, AtStart;
      hide Processor.EndsInside, Serve;
      err, overran := false, false;
      InputIsValid();
      Fixed();
      var nLeft := ReadIterator.ReadableSize(conn.inputBuf);
      if !gotCompleteReq {
        ServeEnds(lib, parser.Value(request), Unread(), replies, 0, !NonEmpty(conn.inputBuf.parts));
        err, overran := ServeInput(nLeft, replies);
      }
    }

    /** The loop, when no request waits. */
    method ServeInput(unread: nat, replies: nat -> Reply) returns (err: bool, overran: bool)
      requires Valid() && unread == |Unread()| && !gotCompleteReq
      modifies Objects(), conn.inputBuf`slices, conn.inputBuf`parts, conn.inputBuf`got
      ensures !overran ==> Valid() && old(trace) <= trace
      ensures overran ==> !err
      ensures overran && !broken ==> EndsInside()
      ensures !overran && !err && !gotCompleteReq && !broken && unread != 0 && !NonEmpty(old(conn.inputBuf.parts)) ==>
                AtStart(Reference(Received()).m)
      ensures broken ==> Reference(Received()).stopped
      ensures Inv(old(parser.Value(request)))
      ensures ServedAs(Serve(lib, old(parser.Value(request)), old(Unread()), replies, 0,
                             !NonEmpty(old(conn.inputBuf.parts))), old(trace), err, overran)
    {
      hide Engine.Same, Engine.ByteRun, HttpRules, Inv, Idle, Processor.InputOk, Processor.ParserOk, NonEmpty, AtStart;
      hide Processor.EndsInside, Serve, Serving, Turn;
      err, overran := false, false;
      Fixed();
      ghost var m0, input0, gap := parser.Value(request), Unread(), !NonEmpty(conn.inputBuf.parts);
      ghost var s := Served(m0, [], input0, false, false, false);
      ServingStart(lib, m0, input0, replies, gap);
      var nLeft, calls := unread, 0;
      while nLeft != 0 && !err && !gotCompleteReq && !overran
        invariant !overran ==> Valid() && nLeft == |Unread()| && old(trace) <= trace && Inv(parser.Value(request))
        invariant !overran ==> (NonEmpty(conn.inputBuf.parts) <==> !gap)
        invariant overran ==> !err
        invariant overran && !broken ==> EndsInside()
        invariant !overran && !broken && nLeft == 0 && calls > 0 && gap ==> AtStart(parser.Value(request))
        invariant calls == 0 ==> nLeft == unread && !overran && !err
        invariant broken ==> Reference(Received()).stopped
        invariant ServedAs(s, old(trace), err, overran) && Serving(lib, m0, input0, replies, calls, gap, s)
        decreases nLeft, if overran then 0 else 1
      {
        ServingStep(lib, m0, input0, replies, calls, gap, s);
        ghost var turn := Turn(lib, s.m, s.rest, replies(calls), gap);
        nLeft, err, overran := ParseAndReply(replies(calls));
        s := turn.(events := s.events + turn.events);
        calls := calls + 1;
      }
      ServingEnd(lib, m0, input0, replies, calls, gap, s);
      if !overran && !broken && !gotCompleteReq && nLeft == 0 {
        ConsumedAll();
      }
    }

    /** A turn of the loop. */
    method ParseAndReply(reply: Reply) returns (nLeft: nat, err: bool, overran: bool)
      requires Valid() && !gotCompleteReq && Unread() != ""
      modifies Objects(), conn.inputBuf`slices, conn.inputBuf`parts, conn.inputBuf`got
      ensures !overran ==>
                && Valid() && nLeft == |Unread()| < |old(Unread())| && old(trace) <= trace
                && (NonEmpty(conn.inputBuf.parts) <==> NonEmpty(old(conn.inputBuf.parts)))
      ensures overran ==> !NonEmpty(old(conn.inputBuf.parts)) && nLeft == |old(Unread())| && !err
      ensures overran && !broken ==> EndsInside()
      ensures !overran && !broken && nLeft == 0 && !NonEmpty(old(conn.inputBuf.parts)) ==>
                AtStart(parser.Value(request))
      ensures broken ==> Reference(Received()).stopped
      ensures !overran ==> Inv(parser.Value(request))
      ensures Inv(old(parser.Value(request)))
      ensures ServedAs(Turn(lib, old(parser.Value(request)), old(Unread()), reply, !NonEmpty(old(conn.inputBuf.parts))),
                       old(trace), err, overran)
    {
      hide Engine.Same, Engine.ByteRun, HttpRules, Inv, Idle, Processor.InputOk, Processor.ParserOk, NonEmpty, AtStart;
      Fixed();
      err := false;
      nLeft, overran := ParseOnce();
      if !overran {
        Fixed();
        err := reply == Failed;
        if gotCompleteReq && reply == MoveOn {
          PrepareForNextReq();
          Fixed();
        }
      }
    }

    lemma {:induction false} InputIsValid()
      requires InputOk()
      ensures conn.inputBuf.Valid() && Tight(conn.inputBuf.parts)
      ensures conn.inputBuf.put == conn.inputBuf.got + conn.inputBuf.Contents()
    {}

    lemma {:induction false} ConsumedAll()
      requires Valid() && Unread() == "" && !broken && !gotCompleteReq
      ensures var r := Reference(Received()); r.m == parser.Value(request) && !r.stopped
    {
      hide HttpRules, Engine.ByteRun;
      assert conn.inputBuf.got + "" == conn.inputBuf.got;
    }

    /** One call of `parse` on the unread input, and `commit_consume` of the bytes it took. The iterators
        deliver the bytes of the chain one by one, but an empty slice behind them is not the end: unless a
        complete request or an error has stopped it, the source then goes on behind the last byte. */
    method ParseOnce() returns (nLeft: nat, overran: bool)
      requires Valid() && !gotCompleteReq && Unread() != ""
      modifies Objects(), conn.inputBuf`slices, conn.inputBuf`parts, conn.inputBuf`got
      ensures Inv(old(parser.Value(request)))
      ensures var o := Call(lib, old(parser.Value(request)), old(Unread()));
        && (overran <==> !NonEmpty(old(conn.inputBuf.parts)) && !o.complete && !o.err)
        && (!overran ==>
              && gotCompleteReq == o.complete && trace == old(trace) + o.events && broken == (old(broken) || o.err)
              && Unread() == old(Unread())[o.used..] && parser.Value(request) == o.m)
      ensures !overran ==>
                && Valid() && nLeft == |Unread()| < |old(Unread())| && old(trace) <= trace
                && (NonEmpty(conn.inputBuf.parts) <==> NonEmpty(old(conn.inputBuf.parts)))
      ensures overran ==> broken == old(broken) && nLeft == |old(Unread())|
      ensures overran && !broken ==> EndsInside()
      ensures !overran && !broken && nLeft == 0 && !NonEmpty(old(conn.inputBuf.parts)) ==>
                AtStart(parser.Value(request))
    {
      hide Engine.Same, Engine.ByteRun, Engine.Parse, HttpRules, Inv, ChainBuffer.Valid, Ready, NonEmpty, AtStart;
      hide LineClear, Idle, Processor.InputOk, Processor.ParserOk, Processor.Apart, Processor.Parsed;
      InputIsValid();
      Fixed();
      var input, atEnd := ReadIterator.Walk(conn.inputBuf);
      var stat, emitted := ParseInput(input);
      overran := !atEnd && !stat.gotCompleteRequest && !stat.parseErr;
      if overran {
        nLeft := |input|;
        return;
      }
      nLeft := stat.nRemaining;
      Take(input, stat, emitted);
    }

    /** What `parse` has made of its input: state and events agree with the byte-at-a-time run. */
    ghost predicate Parsed(input: string, stat: ProcessStat, emitted: seq<Event>)
      reads this, Objects(), conn.inputBuf
    {
      && stat.nRemaining < |input| && Inv(parser.Value(request)) && LineClear(parser.Value(request))
      && (!broken && !stat.parseErr ==>
            var m := parser.Value(request);
            Engine.Same(HttpRules(lib), Reference(conn.inputBuf.got + input[..|input| - stat.nRemaining]),
                        Engine.Run(if stat.gotCompleteRequest then Cleared(m) else m, trace + emitted, false)))
      && (broken || stat.parseErr ==> Reference(Received()).stopped)
    }

    /** Take note of a call of `parse`, and give up the bytes it took. */
    method Take(input: string, stat: ProcessStat, ghost emitted: seq<Event>)
      requires InputOk() && Apart() && input == Unread() && Parsed(input, stat, emitted)
      modifies this`gotCompleteReq, this`trace, this`broken
      modifies conn.inputBuf`slices, conn.inputBuf`parts, conn.inputBuf`got
      ensures Valid() && stat.nRemaining == |Unread()| && Unread() == input[|input| - stat.nRemaining..]
      ensures gotCompleteReq == stat.gotCompleteRequest && trace == old(trace) + emitted
      ensures broken == (old(broken) || stat.parseErr)
      ensures NonEmpty(conn.inputBuf.parts) <==> NonEmpty(old(conn.inputBuf.parts))
    {
      hide Engine.Same, Engine.ByteRun, HttpRules, Inv, LineClear, Idle, NonEmpty;
      hide Processor.InputOk, Processor.ParserOk, Processor.Apart;
      Commit(|input| - stat.nRemaining);
      gotCompleteReq := stat.gotCompleteRequest;
      trace := trace + emitted;
      broken := broken || stat.parseErr;
      Agrees();
    }

    lemma {:induction false} Fixed()
      requires ParserOk()
      ensures Apart() && Inv(parser.Value(request)) && (broken ==> Reference(Received()).stopped)
    {}

    lemma {:induction false} ValidFacts()
      requires Valid()
      ensures conn.inputBuf.put == conn.inputBuf.got + Unread() && Inv(parser.Value(request))
      ensures conn.inputBuf.Room() >= 0
      ensures broken ==> Reference(Received()).stopped
    {
      hide Engine.Same, Engine.ByteRun, HttpRules, Inv, Idle, LineClear;
    }

    lemma {:induction false} Agrees()
      requires Apart() && Inv(parser.Value(request)) && LineClear(parser.Value(request))
      requires !broken ==>
        var m := parser.Value(request);
        Engine.Same(HttpRules(lib), Reference(conn.inputBuf.got),
                    Engine.Run(if gotCompleteReq then Cleared(m) else m, trace, false))
      requires broken ==> Reference(Received()).stopped
      ensures ParserOk()
    {}

    /** `commit_consume` of bytes that are there. */
    method Commit(n: nat)
      requires InputOk() && n <= |Unread()|
      modifies conn.inputBuf`slices, conn.inputBuf`parts, conn.inputBuf`got
      ensures InputOk() && Unread() == old(Unread())[n..]
      ensures conn.inputBuf.got == old(conn.inputBuf.got) + old(Unread())[..n]
      ensures NonEmpty(conn.inputBuf.parts) <==> NonEmpty(old(conn.inputBuf.parts))
    {
      hide ChainBuffer.Valid, Ready, NonEmpty, DropBytes, Concat;
      ghost var parts, room := conn.inputBuf.parts, conn.inputBuf.Room();
      conn.inputBuf.CommitConsume(n);
      conn.inputBuf.FrontShape();
      StillReady(parts, n, conn.inputBuf.parts, room, conn.inputBuf.Room());
    }

    /** The call of `parse` on the bytes of the chain. */
    method ParseInput(input: string) returns (stat: ProcessStat, emitted: seq<Event>)
      requires Valid() && !gotCompleteReq && input == Unread() != ""
      modifies Objects()
      ensures Inv(old(parser.Value(request)))
      ensures gotCompleteReq == old(gotCompleteReq) && trace == old(trace) && broken == old(broken)
      ensures stat.nRemaining < |input| && Parsed(input, stat, emitted)
      ensures Call(lib, old(parser.Value(request)), input)
           == Engine.Outcome(parser.Value(request), emitted, |input| - stat.nRemaining,
                             stat.gotCompleteRequest, stat.parseErr)
      ensures stat.gotCompleteRequest ==> AtStart(parser.Value(request))
      ensures !broken && !stat.parseErr && !stat.gotCompleteRequest ==> EndsInside()
    {
      hide Engine.Same, Engine.ByteRun, Engine.Parse, HttpRules, Inv, ChainBuffer.Valid, Ready, AtStart, LineClear;
      ghost var m, before := parser.Value(request), conn.inputBuf.got;
      InputIsValid();
      stat, emitted := parser.Parse(lib, input, request);
      ParseBoundary(lib, m, input);
      if !broken {
        ConsumedIsByteRun(lib, start, before, trace, m, input);
        if !stat.gotCompleteRequest && !stat.parseErr {
          AllUsed(lib, start, before, trace, m, input);
        }
      }
    }
  }

  /** Consuming bytes leaves a chain as ready as it was, and leaves its empty last slice if it has one. */
  lemma StillReady(parts: seq<string>, n: nat, after: seq<string>, room: int, room': int)
    requires Ready(parts, room) && after == DropBytes(parts, n) && n <= |Concat(parts)|
    requires after == [] || room' == room
    ensures Ready(after, room') && (NonEmpty(after) <==> NonEmpty(parts))
  {
    DropKeepsTight(parts, n);
    DropKeepsGap(parts, n);
  }

  /** Parsing some of the unread input extends the agreement with the byte-at-a-time run. */
  lemma ConsumedIsByteRun(lib: Library, start: Machine, before: string, trace: seq<Event>, m: Machine, input: string)
    requires Inv(start) && Inv(m) && Engine.Lawful(HttpRules(lib))
    requires Engine.Same(HttpRules(lib), Engine.ByteRun(HttpRules(lib), start, before), Engine.Run(m, trace, false))
    ensures var o := Engine.Parse(HttpRules(lib), m, input);
      if o.err then Engine.ByteRun(HttpRules(lib), start, before + input).stopped
      else Engine.Same(HttpRules(lib), Engine.ByteRun(HttpRules(lib), start, before + input[..o.used]),
                       Engine.Run(if o.complete then Cleared(o.m) else o.m, trace + o.events, false))
  {
    hide Engine.ByteRun, Engine.Parse, Engine.Explode, HttpRules;
    var p := HttpRules(lib);
    ResetIsCleared(lib, m);
    var o := Engine.Parse(p, m, input);
    ResetIsCleared(lib, o.m);
    Engine.ParseIsByteRun(p, m, input);
    Engine.ByteRunConcat(p, start, before, input[..o.used]);
    Engine.SameThen(p, Engine.ByteRun(p, start, before), Engine.ByteRun(p, m, input[..o.used]),
                    Engine.Run(m, trace, false), Engine.AsRun(p, o));
    if o.err {
      Engine.ByteRunConcat(p, start, before + input[..o.used], input[o.used..]);
      assert before + input == before + input[..o.used] + input[o.used..];
    }
  }

  lemma ResetIsCleared(lib: Library, m: Machine)
    ensures HttpRules(lib).reset(m) == Cleared(m) && HttpRules(lib).inv(m) == Inv(m)
  {}

  /** A call of `parse` that uses all of its input inside a request leaves the run of all bytes inside it. */
  lemma AllUsed(lib: Library, start: Machine, before: string, trace: seq<Event>, m: Machine, input: string)
    requires Inv(start) && Inv(m) && LineClear(m) && input != "" && Engine.Lawful(HttpRules(lib))
    requires Engine.Same(HttpRules(lib), Engine.ByteRun(HttpRules(lib), start, before), Engine.Run(m, trace, false))
    requires var o := Engine.Parse(HttpRules(lib), m, input); !o.complete && !o.err
    ensures var r := Engine.ByteRun(HttpRules(lib), start, before + input); !r.stopped && !AtStart(r.m)
  {
    hide Engine.ByteRun, Engine.Explode, Engine.Parse, HttpRules, AtStart, LineClear;
    ConsumedIsByteRun(lib, start, before, trace, m, input);
    ParseBoundary(lib, m, input);
    assert input[..|input|] == input;
  }
}
