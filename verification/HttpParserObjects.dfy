/** The mutating objects of HFSMParser.hpp, HttpParser.h/.cpp and HttpRequest.h. Their methods are
    proved to compute the functions of `HttpMachine` and `HfsmEngine`. */
module HttpParserObjects {
  import opened Wrappers
  import opened HttpText
  import Engine = HfsmEngine
  import opened HttpMachine
  import opened HttpChunking

  class HttpRequest {
    var verb: HttpMethod
    var uri: string
    var version: HttpVersion
    var headers: seq<Field>
    var body: string

    function Value(): Request
      reads this
    {
      Request(verb, uri, version, headers, body)
    }

    constructor ()
      ensures Value() == CLEARED
    {
      verb, uri, version, headers, body := UNDEFINED, "", UNKNOWN, [], "";
    }

    method Clear()
      modifies this
      ensures Value() == CLEARED
    {
      version, verb, uri, headers, body := UNKNOWN, UNDEFINED, "", [], "";
    }
  }

  class ConsumeCtx {
    var nLeft: nat
    var err: bool
    var interruptIteration: bool
    var nStepOver: nat
    var events: seq<EventKind>
    var nextSuperState: Option<Goto>

    function Value(): Ctx
      reads this
    {
      Ctx(err, interruptIteration, nStepOver, events, nextSuperState)
    }

    constructor (n: nat)
      ensures Value() == FRESH && nLeft == n
    {
      nLeft, err, interruptIteration, nStepOver, events, nextSuperState := n, false, false, 0, [], None;
    }

    method AddEvent(event: EventKind)
      modifies this
      ensures nLeft == old(nLeft)
      ensures Value() == old(Value()).(events := old(events) + [event], interrupt := true)
    {
      events := events + [event];
      interruptIteration := true;
    }

    method SetError()
      modifies this
      ensures nLeft == old(nLeft)
      ensures Value() == old(Value()).(err := true)
    {
      err := true;
    }

    method IterationStepOver(step: nat)
      modifies this
      ensures nLeft == old(nLeft)
      ensures Value() == old(Value()).(step := step, interrupt := true)
    {
      nStepOver := step;
      interruptIteration := true;
    }

    method TransitSuperState(g: Goto)
      modifies this
      ensures nLeft == old(nLeft)
      ensures Value() == old(Value()).(next := Some(g), interrupt := true)
    {
      nextSuperState := Some(g);
      interruptIteration := true;
    }

    method ParseFailed()
      modifies this
      ensures nLeft == old(nLeft)
      ensures Value() == old(Value()).(err := true, events := old(events) + [EvParseError], interrupt := true)
    {
      SetError();
      AddEvent(EvParseError);
    }
  }

  class RequestLineState {
    var sub: LineSub
    var storedMethod: string
    var storedUri: string
    var storedVersion: string

    function Value(): Line
      reads this
    {
      Line(sub, storedMethod, storedUri, storedVersion)
    }

    constructor ()
      ensures Value() == Line(ExpectMethod, "", "", "")
    {
      sub, storedMethod, storedUri, storedVersion := ExpectMethod, "", "", "";
    }

    method Consume(c: char, ctx: ConsumeCtx, request: HttpRequest, ghost m: Machine)
      requires m.line == Value() && m.req == request.Value() && ctx.Value() == FRESH
      modifies this, ctx, request
      ensures HandleRequestLine(m, c) == Reaction(m.(line := Value(), req := request.Value()), ctx.Value())
      ensures ctx.nLeft == old(ctx.nLeft)
    {
      match sub
      case ExpectMethod =>
        if c == ' ' {
          sub := ExpectUri;
        } else {
          if storedMethod == "" {
            ctx.AddEvent(EvStartRecvingHeader);
          }
          storedMethod := storedMethod + [c];
        }
      case ExpectUri =>
        if c == ' ' {
          sub := ExpectVersion;
        } else {
          storedUri := storedUri + [c];
        }
      case ExpectVersion =>
        if c == '\r' {
          sub := ExpectCrlf;
        } else {
          storedVersion := storedVersion + [c];
        }
      case ExpectCrlf =>
        if c == '\n' {
          storedMethod := ToUpper(storedMethod);
          request.verb := ToHttpMethod(storedMethod);
          storedVersion := ToUpper(storedVersion);
          request.version := ToHttpVersion(storedVersion);
          request.uri := storedUri;
          storedUri := "";
          ctx.TransitSuperState(Goto(StateHeader, 0));
        } else {
          ctx.ParseFailed();
        }
    }

    method OnEntry()
      modifies this
      ensures Value() == old(Value()).(sub := ExpectMethod)
    {
      sub := ExpectMethod;
    }

    method OnExit()
      modifies this
      ensures Value() == Line(old(sub), "", "", "")
    {
      storedMethod, storedUri, storedVersion := "", "", "";
    }
  }

  class HeaderState {
    var sub: HeadSub
    var fieldKey: string
    var fieldVal: string

    function Value(): Head
      reads this
    {
      Head(sub, fieldKey, fieldVal)
    }

    constructor ()
      ensures Value() == Head(ExpectFieldKey, "", "")
    {
      sub, fieldKey, fieldVal := ExpectFieldKey, "", "";
    }

    method Consume(lib: Library, c: char, ctx: ConsumeCtx, request: HttpRequest, ghost m: Machine)
      requires m.head == Value() && m.req == request.Value() && ctx.Value() == FRESH
      modifies this, ctx, request
      ensures HandleHeader(lib, m, c) == Reaction(m.(head := Value(), req := request.Value()), ctx.Value())
      ensures ctx.nLeft == old(ctx.nLeft)
    {
      match sub
      case ExpectFieldKey =>
        if c == ':' {
          sub := GetColon;
        } else {
          fieldKey := fieldKey + [c];
        }
      case GetColon =>
        if c != ' ' {
          fieldVal := fieldVal + [c];
        }
        sub := ExpectFieldVal;
      case ExpectFieldVal =>
        if c == '\r' {
          sub := ExpectFieldEnd;
          fieldKey := ToLower(fieldKey);
          fieldVal := ToLower(fieldVal);
          request.headers := request.headers + [Field(fieldKey, fieldVal)];
          fieldKey, fieldVal := "", "";
        } else {
          fieldVal := fieldVal + [c];
        }
      case ExpectFieldEnd =>
        if c == '\n' {
          sub := FieldEnded;
        } else {
          ctx.ParseFailed();
        }
      case FieldEnded =>
        if c == '\r' {
          sub := ExpectHeaderEnd;
        } else {
          fieldKey := fieldKey + [c];
          sub := ExpectFieldKey;
        }
      case ExpectHeaderEnd =>
        if c == '\n' {
          EndOfHeader(lib, ctx, request);
        } else {
          ctx.ParseFailed();
        }
    }

    method EndOfHeader(lib: Library, ctx: ConsumeCtx, request: HttpRequest)
      requires ctx.Value() == FRESH
      modifies ctx
      ensures ctx.Value() == HeaderEnd(lib, request.headers)
      ensures ctx.nLeft == old(ctx.nLeft)
    {
      ctx.AddEvent(EvHeaderReceived);
      var contentLenStr := FieldVal(lib, request.headers, "content-length");
      if contentLenStr.Some? {
        var len := StrToSize(lib, contentLenStr.value);
        if len.None? {
          ctx.ParseFailed();
        } else if len.value != 0 {
          ctx.TransitSuperState(Goto(StateContentLength, len.value));
        } else {
          ctx.TransitSuperState(Goto(StateRequestLine, 0));
          ctx.AddEvent(EvRequestReceived);
        }
      } else {
        var coding := FieldVal(lib, request.headers, "transfer-encoding");
        if coding.Some? {
          ctx.TransitSuperState(Goto(StateChunk, 0));
        } else {
          ctx.TransitSuperState(Goto(StateRequestLine, 0));
          ctx.AddEvent(EvRequestReceived);
        }
      }
    }

    method OnEntry()
      modifies this
      ensures Value() == old(Value()).(sub := ExpectFieldKey)
    {
      sub := ExpectFieldKey;
    }

    method OnExit()
      modifies this
      ensures Value() == Head(old(sub), "", "")
    {
      fieldKey, fieldVal := "", "";
    }
  }

  class ContentLengthState {
    var lengthGot: nat
    var lengthExpect: nat

    function Value(): Fixed
      reads this
    {
      Fixed(lengthGot, lengthExpect)
    }

    constructor ()
    {
      lengthGot, lengthExpect := 0, 0;
    }

    method Consume(ctx: ConsumeCtx, ghost m: Machine)
      requires m.fixed == Value() && lengthGot <= lengthExpect && ctx.Value() == FRESH
      modifies this, ctx
      ensures HandleContentLength(m, ctx.nLeft) == Reaction(m.(fixed := Value()), ctx.Value())
      ensures ctx.nLeft == old(ctx.nLeft)
    {
      var nLeft := ctx.nLeft;
      var lengthIncrement := if nLeft + lengthGot >= lengthExpect then lengthExpect - lengthGot else nLeft;
      lengthGot := lengthGot + lengthIncrement;
      ctx.IterationStepOver(lengthIncrement);
      ctx.AddEvent(EvOnPartofBody);
      if lengthGot == lengthExpect {
        ctx.TransitSuperState(Goto(StateRequestLine, 0));
        ctx.AddEvent(EvRequestReceived);
      }
    }

    method OnEntry(length: nat)
      modifies this
      ensures Value() == Fixed(0, length)
    {
      lengthGot, lengthExpect := 0, length;
    }
  }

  class ChunkState {
    var sub: ChunkSub
    var chunkLenHex: string
    var chunkLenExpect: nat
    var chunkLenGot: nat

    function Value(): Chunk
      reads this
    {
      Chunk(sub, chunkLenHex, chunkLenExpect, chunkLenGot)
    }

    constructor ()
    {
      sub, chunkLenHex, chunkLenExpect, chunkLenGot := ExpectLength, "", 0, 0;
    }

    method Consume(lib: Library, c: char, ctx: ConsumeCtx, ghost m: Machine)
      requires m.chunk == Value() && ctx.Value() == FRESH
      requires sub == ExpectChunkData ==> chunkLenGot <= chunkLenExpect
      modifies this, ctx
      ensures HandleChunk(lib, m, c, ctx.nLeft) == Reaction(m.(chunk := Value()), ctx.Value())
      ensures ctx.nLeft == old(ctx.nLeft)
    {
      match sub
      case ExpectLength =>
        if c != '\r' {
          chunkLenHex := chunkLenHex + [c];
        } else {
          sub := GetInitialCr;
        }
      case GetInitialCr =>
        if c != '\n' || HexToSize(lib, chunkLenHex).None? {
          ctx.AddEvent(EvParseError);
        } else {
          chunkLenExpect := HexToSize(lib, chunkLenHex).value;
          sub := if chunkLenExpect != 0 then ExpectChunkData else FinishWaitCr;
        }
      case ExpectChunkData =>
        var nLeft := ctx.nLeft;
        var lengthIncrement := if chunkLenGot + nLeft >= chunkLenExpect then chunkLenExpect - chunkLenGot else nLeft;
        chunkLenGot := chunkLenGot + lengthIncrement;
        ctx.IterationStepOver(lengthIncrement);
        ctx.AddEvent(EvOnPartofBody);
        if chunkLenGot == chunkLenExpect {
          sub := ExpectChunkCr;
        }
      case ExpectChunkCr =>
        if c == '\r' {
          sub := ExpectChunkLf;
        } else {
          ctx.ParseFailed();
        }
      case ExpectChunkLf =>
        ctx.TransitSuperState(Goto(StateChunk, 0));
        if c == '\n' {
          ctx.TransitSuperState(Goto(StateChunk, 0));
        } else {
          ctx.ParseFailed();
        }
      case FinishWaitCr =>
        if c == '\r' {
          sub := FinishWaitLf;
        } else {
          ctx.ParseFailed();
        }
      case FinishWaitLf =>
        if c == '\n' {
          ctx.AddEvent(EvRequestReceived);
          ctx.TransitSuperState(Goto(StateRequestLine, 0));
        } else {
          ctx.ParseFailed();
        }
    }

    method OnEntry()
      modifies this
      ensures Value() == Chunk(ExpectLength, "", 0, 0)
    {
      chunkLenExpect, chunkLenGot, chunkLenHex, sub := 0, 0, "", ExpectLength;
    }
  }

  /** The byte loop has handed the first `k` bytes to the handler, which has not interrupted. */
  ghost predicate Reaches(lib: Library, m0: Machine, input: string, m: Machine, k: nat)
    requires Inv(m0) && input != []
  {
    && k <= |input| && Inv(m)
    && Round(lib, m0, input) ==
       if k == |input| then Engine.Outcome(m, [], k, false, false)
       else var o := Round(lib, m, input[k..]); o.(used := o.used + k)
  }

  lemma ReachesStep(lib: Library, m0: Machine, input: string, m: Machine, k: nat)
    requires Inv(m0) && k < |input| && Reaches(lib, m0, input, m, k)
    ensures var r := HttpMachine.Handle(lib, m, input[k], |input| - k);
      if r.ctx.interrupt then
        r.ctx.step <= |input| - k && Round(lib, m0, input) == Interrupted(r, input, k)
      else
        r.ctx == FRESH && Reaches(lib, m0, input, r.m, k + 1)
  {
    hide HttpMachine.Handle, Settle;
    var rest := input[k..];
    assert rest[0] == input[k];
    HandleKeepsBounds(lib, m, rest[0], |rest|);
    if k + 1 < |input| {
      assert rest[1..] == input[k + 1..];
    }
  }

  /** The outcome of a round whose handler interrupted at byte `at`. */
  function Interrupted(r: Reaction, input: string, at: nat): Engine.Outcome<Machine, Event>
    requires at <= |input| && r.ctx.step <= |input| - at
  {
    var o := Settle(r, input[at..]);
    o.(used := at + o.used)
  }

  /** A call of `parse` on `input` has got as far as `o`. */
  ghost predicate Parsing(lib: Library, m0: Machine, input: string, o: Engine.Outcome<Machine, Event>) {
    && Inv(m0) && Inv(o.m) && o.used <= |input|
    && Engine.Lawful(HttpRules(lib)) && Engine.Parsing(HttpRules(lib), m0, input, o)
  }

  lemma ParsingStart(lib: Library, m0: Machine, input: string)
    requires Inv(m0)
    ensures Parsing(lib, m0, input, Engine.Outcome(m0, [], 0, false, false))
  {
    HttpIsLawful(lib);
    assert input[0..] == input;
  }

  lemma ParsingStep(lib: Library, m0: Machine, input: string, o: Engine.Outcome<Machine, Event>,
                    r: Engine.Outcome<Machine, Event>)
    requires Parsing(lib, m0, input, o) && o.used < |input| && !o.complete && !o.err
    requires r == Round(lib, o.m, input[o.used..])
    ensures Parsing(lib, m0, input, r.(events := o.events + r.events, used := o.used + r.used))
  {
    hide Round;
    StepIsRound(lib, o.m, input[o.used..]);
    Engine.ParsingStep(HttpRules(lib), m0, input, o);
  }

  lemma ParsingEnd(lib: Library, m0: Machine, input: string, o: Engine.Outcome<Machine, Event>)
    requires Parsing(lib, m0, input, o) && (o.used == |input| || o.complete || o.err)
    ensures Engine.Lawful(HttpRules(lib)) && Engine.Parse(HttpRules(lib), m0, input) == o
  {
    assert o.events + [] == o.events;
  }

  datatype ProcessStat = ProcessStat(parseErr: bool, gotCompleteRequest: bool, nRemaining: nat)

  class HttpParser {
    const requestLine: RequestLineState
    const header: HeaderState
    const contentLength: ContentLengthState
    const chunk: ChunkState
    var curr: Super

    /** The parser's memory together with the request it is given. */
    function Value(request: HttpRequest): Machine
      reads this, requestLine, header, contentLength, chunk, request
    {
      Machine(curr, requestLine.Value(), header.Value(), contentLength.Value(), chunk.Value(), request.Value())
    }

    ghost function Repr(): set<object>
    {
      {this, requestLine, header, contentLength, chunk}
    }

    constructor ()
      ensures fresh(Repr())
      ensures curr == StateRequestLine && requestLine.Value() == Line(ExpectMethod, "", "", "")
      ensures header.Value() == Head(ExpectFieldKey, "", "")
    {
      requestLine := new RequestLineState();
      header := new HeaderState();
      contentLength := new ContentLengthState();
      chunk := new ChunkState();
      curr := StateRequestLine;
    }

    /** One call of the current super state's handler. */
    method Dispatch(lib: Library, c: char, ctx: ConsumeCtx, request: HttpRequest)
      requires ctx !in Repr() && ctx.Value() == FRESH && Inv(Value(request))
      modifies Repr() - {this}, ctx, request
      ensures HttpMachine.Handle(lib, old(Value(request)), c, ctx.nLeft) == Reaction(Value(request), ctx.Value())
      ensures ctx.nLeft == old(ctx.nLeft)
    {
      ghost var m := Value(request);
      match curr
      case StateRequestLine => requestLine.Consume(c, ctx, request, m);
      case StateHeader => header.Consume(lib, c, ctx, request, m);
      case StateContentLength => contentLength.Consume(ctx, m);
      case StateChunk => chunk.Consume(lib, c, ctx, m);
    }

    /** The byte loop handed to `consume`: stops at the end of input or when a handler interrupts; `at` is
        the byte at which it interrupted. */
    method ConsumeBytes(lib: Library, input: string, ctx: ConsumeCtx, request: HttpRequest)
      returns (cur: nat, ghost at: nat)
      requires input != [] && ctx !in Repr() && ctx.Value() == FRESH && ctx.nLeft == |input|
      requires Inv(Value(request))
      modifies Repr() - {this}, ctx, request
      ensures var o := Round(lib, old(Value(request)), input);
        if ctx.interruptIteration then
          && at < |input| && ctx.nStepOver <= |input| - at
          && cur == at + (if ctx.nStepOver == 0 then 1 else 0)
          && o == Interrupted(Reaction(Value(request), ctx.Value()), input, at)
        else
          cur == |input| && ctx.Value() == FRESH && o == Engine.Outcome(Value(request), [], |input|, false, false)
    {
      hide HttpMachine.Handle;
      cur, at := 0, 0;
      ghost var m0 := Value(request);
      assert input[0..] == input;
      while cur != |input|
        invariant ctx.Value() == FRESH && cur <= |input| && ctx.nLeft == |input| - cur
        invariant Reaches(lib, m0, input, Value(request), cur)
        decreases |input| - cur
      {
        at := cur;
        ConsumeByte(lib, input, cur, ctx, request, m0);
        if ctx.interruptIteration {
          if ctx.nStepOver == 0 {
            cur := cur + 1;
          }
          break;
        }
        cur := cur + 1;
      }
    }

    method ConsumeByte(lib: Library, input: string, cur: nat, ctx: ConsumeCtx, request: HttpRequest, ghost m0: Machine)
      requires Inv(m0) && cur < |input| && ctx !in Repr() && ctx.Value() == FRESH && ctx.nLeft == |input| - cur
      requires Reaches(lib, m0, input, Value(request), cur)
      modifies Repr() - {this}, ctx, request
      ensures ctx.nLeft == |input| - cur - 1
      ensures
        if ctx.interruptIteration then
          && ctx.nStepOver <= |input| - cur
          && Round(lib, m0, input) == Interrupted(Reaction(Value(request), ctx.Value()), input, cur)
        else
          ctx.Value() == FRESH && Reaches(lib, m0, input, Value(request), cur + 1)
    {
      hide Round, HttpMachine.Handle, Interrupted;
      ReachesStep(lib, m0, input, Value(request), cur);
      Dispatch(lib, input[cur], ctx, request);
      ctx.nLeft := ctx.nLeft - 1;
    }

    method EmitEvent(kind: EventKind, skipped: string, request: HttpRequest) returns (emitted: seq<Event>)
      modifies request
      ensures Emitted(request.Value(), emitted) == EmitOne(old(request.Value()), kind, skipped)
    {
      match kind
      case EvParseError => emitted := [ParseError];
      case EvStartRecvingHeader => emitted := [StartRecvingHeader];
      case EvHeaderReceived => emitted := [HeaderReceived];
      case EvOnPartofBody =>
        request.body := request.body + skipped;
        emitted := [OnPartofBody(skipped)];
      case EvRequestReceived => emitted := [RequestReceived(request.Value())];
    }

    method EmitEvents(ctx: ConsumeCtx, skipped: string, request: HttpRequest) returns (emitted: seq<Event>)
      modifies request
      ensures Emitted(request.Value(), emitted) == Emit(old(request.Value()), ctx.events, skipped)
    {
      emitted := [];
      for i := 0 to |ctx.events|
        invariant ctx.events == old(ctx.events)
        invariant Emitted(request.Value(), emitted) == Emit(old(request.Value()), ctx.events[..i], skipped)
      {
        var one := EmitEvent(ctx.events[i], skipped, request);
        emitted := emitted + one;
        assert ctx.events[..i + 1][..i] == ctx.events[..i];
      }
      assert ctx.events[..|ctx.events|] == ctx.events;
    }

    method TransitSuperState(g: Goto, request: HttpRequest)
      modifies Repr()
      ensures Value(request) == Transit(old(Value(request)), g)
    {
      match curr {
        case StateRequestLine => requestLine.OnExit();
        case StateHeader => header.OnExit();
        case _ =>
      }
      curr := g.state;
      match g.state {
        case StateRequestLine => requestLine.OnEntry();
        case StateHeader => header.OnEntry();
        case StateContentLength => contentLength.OnEntry(g.length);
        case StateChunk => chunk.OnEntry();
      }
    }

    /** One iteration of the outer loop of `parse`, on the bytes not yet consumed. */
    method RunRound(lib: Library, input: string, request: HttpRequest)
      returns (cur: nat, emitted: seq<Event>, complete: bool, err: bool)
      requires input != [] && Inv(Value(request))
      modifies Repr(), request
      ensures 0 < cur <= |input| && Inv(Value(request))
      ensures Round(lib, old(Value(request)), input) == Engine.Outcome(Value(request), emitted, cur, complete, err)
    {
      hide Round;
      RoundProgress(lib, Value(request), input);
      var ctx := new ConsumeCtx(|input|);
      ghost var at;
      cur, at := ConsumeBytes(lib, input, ctx, request);
      if ctx.interruptIteration {
        emitted, complete := AfterInterrupt(input, cur, ctx, request, at);
      } else {
        emitted, complete := [], false;
      }
      cur := cur + ctx.nStepOver;
      err := ctx.err;
    }

    /** Emits the events a handler asked for and makes the transition it asked for. Without an interrupt
        there are neither. */
    method AfterInterrupt(input: string, cur: nat, ctx: ConsumeCtx, request: HttpRequest, ghost at: nat)
      returns (emitted: seq<Event>, complete: bool)
      requires ctx !in Repr() && ctx as object != request && at < |input| && ctx.nStepOver <= |input| - at
      requires cur == at + (if ctx.nStepOver == 0 then 1 else 0)
      modifies Repr(), request
      ensures ctx.Value() == old(ctx.Value())
      ensures Settle(Reaction(old(Value(request)), ctx.Value()), input[at..])
           == Engine.Outcome(Value(request), emitted, if ctx.nStepOver == 0 then 1 else ctx.nStepOver, complete,
                             ctx.err)
    {
      emitted, complete := [], false;
      if ctx.events != [] {
        var skipped := input[cur..cur + ctx.nStepOver];
        assert skipped == input[at..][..ctx.nStepOver];
        emitted := EmitEvents(ctx, skipped, request);
      }
      if ctx.nextSuperState.Some? {
        TransitSuperState(ctx.nextSuperState.value, request);
        complete := curr == StateRequestLine;
      }
    }

    /** `parse`: tries to extract one request, emitting events on the fly. */
    method Parse(lib: Library, input: string, request: HttpRequest)
      returns (stat: ProcessStat, trace: seq<Event>)
      requires Inv(Value(request))
      modifies Repr(), request
      ensures Engine.Lawful(HttpRules(lib)) && stat.nRemaining <= |input| && Inv(Value(request))
      ensures Engine.Parse(HttpRules(lib), old(Value(request)), input)
           == Engine.Outcome(Value(request), trace, |input| - stat.nRemaining, stat.gotCompleteRequest, stat.parseErr)
    {
      ghost var m0 := Value(request);
      hide Round;
      ParsingStart(lib, m0, input);
      var cur, complete, err := 0, false, false;
      trace := [];
      while cur != |input| && !complete && !err
        invariant 0 <= cur <= |input|
        invariant Parsing(lib, m0, input, Engine.Outcome(Value(request), trace, cur, complete, err))
        decreases |input| - cur
      {
        cur, trace, complete, err := ParseRound(lib, input, cur, request, trace, m0);
      }
      stat := ProcessStat(err, complete, |input| - cur);
      ParsingEnd(lib, m0, input, Engine.Outcome(Value(request), trace, cur, complete, err));
    }

    method ParseRound(lib: Library, input: string, cur: nat, request: HttpRequest, trace: seq<Event>, ghost m0: Machine)
      returns (cur': nat, trace': seq<Event>, complete: bool, err: bool)
      requires cur < |input| && Parsing(lib, m0, input, Engine.Outcome(Value(request), trace, cur, false, false))
      modifies Repr(), request
      ensures cur < cur' <= |input|
      ensures Parsing(lib, m0, input, Engine.Outcome(Value(request), trace', cur', complete, err))
    {
      hide Round, Engine.Parsing;
      ghost var o := Engine.Outcome(Value(request), trace, cur, false, false);
      var used, emitted;
      used, emitted, complete, err := RunRound(lib, input[cur..], request);
      cur', trace' := cur + used, trace + emitted;
      ParsingStep(lib, m0, input, o, Engine.Outcome(Value(request), emitted, used, complete, err));
    }
  }
}
