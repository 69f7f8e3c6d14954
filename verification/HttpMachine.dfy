/** The two-level state machine of HttpParser.cpp and the engine of HFSMParser.hpp, as functions on
    values. `HttpParserObjects` shows that the mutating classes compute exactly these functions. */
module HttpMachine {
  import opened Wrappers
  import opened HttpText
  import opened HfsmEngine

  // ----- the request being filled in (HttpRequest.h, HttpDefines.h)

  datatype HttpMethod = GET | POST | HEAD | PUT | PATCH | DELETE | OPTIONS | ANY | UNDEFINED
  datatype HttpVersion = VERSION_1_0 | VERSION_1_1 | VERSION_2 | UNKNOWN

  function ToHttpMethod(s: string): HttpMethod {
    if s == "GET" then GET else if s == "POST" then POST else if s == "HEAD" then HEAD
    else if s == "PUT" then PUT else if s == "PATCH" then PATCH else if s == "DELETE" then DELETE
    else if s == "OPTIONS" then OPTIONS else if s == "ANY" then ANY else UNDEFINED
  }

  function ToHttpVersion(s: string): HttpVersion {
    if s == "HTTP/1.0" then VERSION_1_0 else if s == "HTTP/1.1" then VERSION_1_1
    else if s == "HTTP/2" then VERSION_2 else UNKNOWN
  }

  /** The name of a method, and of a version. */
  function MethodName(verb: HttpMethod): string {
    match verb
    case GET => "GET" case POST => "POST" case HEAD => "HEAD" case PUT => "PUT" case PATCH => "PATCH"
    case DELETE => "DELETE" case OPTIONS => "OPTIONS" case ANY => "ANY" case UNDEFINED => "UNDEFINED"
  }

  function VersionName(version: HttpVersion): string {
    match version
    case VERSION_1_0 => "HTTP/1.0" case VERSION_1_1 => "HTTP/1.1" case VERSION_2 => "HTTP/2" case UNKNOWN => "UNKNOWN"
  }

  /** A method is recognised by exactly its name, in any case of its letters. */
  lemma MethodByName(s: string, verb: HttpMethod)
    requires verb != UNDEFINED
    ensures ToHttpMethod(ToUpper(s)) == verb <==> Alike(s, MethodName(verb))
  {
    var name := MethodName(verb);
    assert forall i :: 0 <= i < |name| ==> 'A' <= name[i] <= 'Z';
    assert ToUpper(name) == name;
    AlikeCapitals(s, name);
    assert ToHttpMethod(name) == verb;
  }

  lemma VersionByName(s: string, version: HttpVersion)
    requires version != UNKNOWN
    ensures ToHttpVersion(ToUpper(s)) == version <==> Alike(s, VersionName(version))
  {
    var name := VersionName(version);
    assert forall i :: 0 <= i < |name| ==> !('a' <= name[i] <= 'z');
    assert ToUpper(name) == name;
    AlikeCapitals(s, name);
    assert ToHttpVersion(name) == version;
  }

  datatype Field = Field(key: string, val: string)
  datatype Request = Request(verb: HttpMethod, uri: string, version: HttpVersion, headers: seq<Field>, body: string)

  const CLEARED := Request(UNDEFINED, "", UNKNOWN, [], "")

  /** All values stored under a key, in the order they were added. */
  function ValuesOf(headers: seq<Field>, key: string): seq<string> {
    if headers == [] then []
    else (if headers[0].key == key then [headers[0].val] else []) + ValuesOf(headers[1..], key)
  }

  function FieldVal(lib: Library, headers: seq<Field>, key: string): Option<string> {
    var vals := ValuesOf(headers, key);
    if vals == [] then None else Some(vals[lib.pickEqualKey(vals) % |vals|])
  }

  /** A lookup collects the values of a key field by field, and may report any of them. */
  lemma {:induction false} ValuesConcat(a: seq<Field>, b: seq<Field>, key: string)
    ensures ValuesOf(a + b, key) == ValuesOf(a, key) + ValuesOf(b, key)
  {
    if a == [] {
      assert a + b == b;
    } else {
      assert (a + b)[0] == a[0] && (a + b)[1..] == a[1..] + b;
      ValuesConcat(a[1..], b, key);
    }
  }

  lemma ValuesOfOne(f: Field, key: string)
    ensures ValuesOf([f], key) == if f.key == key then [f.val] else []
  {}

  lemma AnyValueFound(lib: Library, headers: seq<Field>, key: string, i: nat)
    requires i < |ValuesOf(headers, key)|
    ensures FieldVal(lib.(pickEqualKey := _ => i), headers, key) == Some(ValuesOf(headers, key)[i])
  {
    hide ValuesOf;
    assert i % |ValuesOf(headers, key)| == i;
  }

  // ----- the four super states and their stored data

  datatype Super = StateRequestLine | StateHeader | StateContentLength | StateChunk

  datatype LineSub = ExpectMethod | ExpectUri | ExpectVersion | ExpectCrlf
  datatype Line = Line(sub: LineSub, verb: string, uri: string, version: string)

  datatype HeadSub = ExpectFieldKey | GetColon | ExpectFieldVal | ExpectFieldEnd | FieldEnded | ExpectHeaderEnd
  datatype Head = Head(sub: HeadSub, key: string, val: string)

  datatype Fixed = Fixed(got: nat, want: nat)

  datatype ChunkSub = ExpectLength | GetInitialCr | ExpectChunkData | ExpectChunkCr | ExpectChunkLf
                    | FinishWaitCr | FinishWaitLf
  datatype Chunk = Chunk(sub: ChunkSub, hex: string, want: nat, got: nat)

  /** The parser's whole memory together with the request it fills in. */
  datatype Machine = Machine(cur: Super, line: Line, head: Head, fixed: Fixed, chunk: Chunk, req: Request)

  /** Block-stepping states always have something left to step over. */
  predicate Inv(m: Machine) {
    && (m.cur == StateContentLength ==> m.fixed.got < m.fixed.want)
    && (m.cur == StateChunk && m.chunk.sub == ExpectChunkData ==> m.chunk.got < m.chunk.want)
    && (m.cur == StateChunk && (m.chunk.sub == ExpectLength || m.chunk.sub == GetInitialCr) ==> m.chunk.got == 0)
  }

  /** The parser is at the very start of a request and the request object is clear. */
  predicate Idle(m: Machine) {
    && m.cur == StateRequestLine && m.line == Line(ExpectMethod, "", "", "")
    && m.head.key == "" && m.head.val == ""
    && m.req == CLEARED
  }

  // ----- one handler call

  datatype EventKind = EvParseError | EvStartRecvingHeader | EvHeaderReceived | EvOnPartofBody | EvRequestReceived

  datatype Goto = Goto(state: Super, length: nat)

  /** What a handler leaves in the ConsumeCtx it is given. */
  datatype Ctx = Ctx(err: bool, interrupt: bool, step: nat, events: seq<EventKind>, next: Option<Goto>)

  const FRESH := Ctx(false, false, 0, [], None)
  const FAILED := Ctx(true, true, 0, [EvParseError], None)

  datatype Reaction = Reaction(m: Machine, ctx: Ctx)

  function HandleRequestLine(m: Machine, c: char): Reaction
  {
    var s := m.line;
    match s.sub
    case ExpectMethod =>
      if c == ' ' then Reaction(m.(line := s.(sub := ExpectUri)), FRESH)
      else Reaction(m.(line := s.(verb := s.verb + [c])),
                    if s.verb == [] then Ctx(false, true, 0, [EvStartRecvingHeader], None) else FRESH)
    case ExpectUri =>
      if c == ' ' then Reaction(m.(line := s.(sub := ExpectVersion)), FRESH)
      else Reaction(m.(line := s.(uri := s.uri + [c])), FRESH)
    case ExpectVersion =>
      if c == '\r' then Reaction(m.(line := s.(sub := ExpectCrlf)), FRESH)
      else Reaction(m.(line := s.(version := s.version + [c])), FRESH)
    case ExpectCrlf =>
      if c == '\n' then
        var line := Line(s.sub, ToUpper(s.verb), "", ToUpper(s.version));
        var req := m.req.(verb := ToHttpMethod(line.verb), version := ToHttpVersion(line.version), uri := s.uri);
        Reaction(m.(line := line, req := req), Ctx(false, true, 0, [], Some(Goto(StateHeader, 0))))
      else Reaction(m, FAILED)
  }

  /** The end of the header block: which body, if any, follows. content-length is looked at first. */
  function HeaderEnd(lib: Library, headers: seq<Field>): Ctx {
    var len := FieldVal(lib, headers, "content-length");
    if len.Some? then
      match StrToSize(lib, len.value)
      case None => Ctx(true, true, 0, [EvHeaderReceived, EvParseError], None)
      case Some(n) =>
        if n != 0 then Ctx(false, true, 0, [EvHeaderReceived], Some(Goto(StateContentLength, n)))
        else Ctx(false, true, 0, [EvHeaderReceived, EvRequestReceived], Some(Goto(StateRequestLine, 0)))
    else if FieldVal(lib, headers, "transfer-encoding").Some? then
      Ctx(false, true, 0, [EvHeaderReceived], Some(Goto(StateChunk, 0)))
    else
      Ctx(false, true, 0, [EvHeaderReceived, EvRequestReceived], Some(Goto(StateRequestLine, 0)))
  }

  function HandleHeader(lib: Library, m: Machine, c: char): Reaction {
    var s := m.head;
    match s.sub
    case ExpectFieldKey =>
      if c == ':' then Reaction(m.(head := s.(sub := GetColon)), FRESH)
      else Reaction(m.(head := s.(key := s.key + [c])), FRESH)
    case GetColon =>
      Reaction(m.(head := s.(sub := ExpectFieldVal, val := if c != ' ' then s.val + [c] else s.val)), FRESH)
    case ExpectFieldVal =>
      if c == '\r' then
        var field := Field(ToLower(s.key), ToLower(s.val));
        Reaction(m.(head := Head(ExpectFieldEnd, "", ""), req := m.req.(headers := m.req.headers + [field])), FRESH)
      else Reaction(m.(head := s.(val := s.val + [c])), FRESH)
    case ExpectFieldEnd =>
      if c == '\n' then Reaction(m.(head := s.(sub := FieldEnded)), FRESH) else Reaction(m, FAILED)
    case FieldEnded =>
      if c == '\r' then Reaction(m.(head := s.(sub := ExpectHeaderEnd)), FRESH)
      else Reaction(m.(head := s.(sub := ExpectFieldKey, key := s.key + [c])), FRESH)
    case ExpectHeaderEnd =>
      if c == '\n' then Reaction(m, HeaderEnd(lib, m.req.headers)) else Reaction(m, FAILED)
  }

  /** How far a block state steps: to the end of its block or of the input, whichever comes first. */
  function BlockStep(got: nat, want: nat, nLeft: nat): nat
    requires got <= want
  {
    if nLeft + got >= want then want - got else nLeft
  }

  function HandleContentLength(m: Machine, nLeft: nat): Reaction
    requires m.fixed.got <= m.fixed.want
  {
    var k := BlockStep(m.fixed.got, m.fixed.want, nLeft);
    var s := m.fixed.(got := m.fixed.got + k);
    Reaction(m.(fixed := s),
             if s.got == s.want
             then Ctx(false, true, k, [EvOnPartofBody, EvRequestReceived], Some(Goto(StateRequestLine, 0)))
             else Ctx(false, true, k, [EvOnPartofBody], None))
  }

  function HandleChunk(lib: Library, m: Machine, c: char, nLeft: nat): Reaction
    requires m.chunk.sub == ExpectChunkData ==> m.chunk.got <= m.chunk.want
  {
    var s := m.chunk;
    match s.sub
    case ExpectLength =>
      if c != '\r' then Reaction(m.(chunk := s.(hex := s.hex + [c])), FRESH)
      else Reaction(m.(chunk := s.(sub := GetInitialCr)), FRESH)
    case GetInitialCr =>
      // a bad size line reports ParseError but does not set the error flag
      if c != '\n' then Reaction(m, FAILED.(err := false))
      else (match HexToSize(lib, s.hex)
            case None => Reaction(m, FAILED.(err := false))
            case Some(n) =>
              Reaction(m.(chunk := s.(want := n, sub := if n != 0 then ExpectChunkData else FinishWaitCr)), FRESH))
    case ExpectChunkData =>
      var k := BlockStep(s.got, s.want, nLeft);
      var s' := s.(got := s.got + k, sub := if s.got + k == s.want then ExpectChunkCr else s.sub);
      Reaction(m.(chunk := s'), Ctx(false, true, k, [EvOnPartofBody], None))
    case ExpectChunkCr =>
      if c == '\r' then Reaction(m.(chunk := s.(sub := ExpectChunkLf)), FRESH) else Reaction(m, FAILED)
    case ExpectChunkLf =>
      // the transition is requested before the byte is looked at
      Reaction(m, if c == '\n' then Ctx(false, true, 0, [], Some(Goto(StateChunk, 0)))
                  else FAILED.(next := Some(Goto(StateChunk, 0))))
    case FinishWaitCr =>
      if c == '\r' then Reaction(m.(chunk := s.(sub := FinishWaitLf)), FRESH) else Reaction(m, FAILED)
    case FinishWaitLf =>
      if c == '\n' then Reaction(m, Ctx(false, true, 0, [EvRequestReceived], Some(Goto(StateRequestLine, 0))))
      else Reaction(m, FAILED)
  }

  function Handle(lib: Library, m: Machine, c: char, nLeft: nat): Reaction
    requires Inv(m)
  {
    match m.cur
    case StateRequestLine => HandleRequestLine(m, c)
    case StateHeader => HandleHeader(lib, m, c)
    case StateContentLength => HandleContentLength(m, nLeft)
    case StateChunk => HandleChunk(lib, m, c, nLeft)
  }

  // ----- the engine

  /** on_exit of the current super state. */
  function OnExit(m: Machine): Machine {
    match m.cur
    case StateRequestLine => m.(line := m.line.(verb := "", uri := "", version := ""))
    case StateHeader => m.(head := m.head.(key := "", val := ""))
    case _ => m
  }

  /** on_entry of the next super state. */
  function OnEntry(m: Machine, g: Goto): Machine {
    match g.state
    case StateRequestLine => m.(cur := g.state, line := m.line.(sub := ExpectMethod))
    case StateHeader => m.(cur := g.state, head := m.head.(sub := ExpectFieldKey))
    case StateContentLength => m.(cur := g.state, fixed := Fixed(0, g.length))
    case StateChunk => m.(cur := g.state, chunk := Chunk(ExpectLength, "", 0, 0))
  }

  function Transit(m: Machine, g: Goto): Machine {
    OnEntry(OnExit(m), g)
  }

  /** Events as the registered callbacks of Http1ProtoProcessor.cpp see them. */
  datatype Event = StartRecvingHeader | HeaderReceived | OnPartofBody(data: string)
                 | RequestReceived(request: Request) | ParseError

  datatype Emitted = Emitted(req: Request, events: seq<Event>)

  /** Emits one event; the body callback appends the skipped range to the request's body. */
  function EmitOne(req: Request, kind: EventKind, skipped: string): Emitted {
    match kind
    case EvParseError => Emitted(req, [ParseError])
    case EvStartRecvingHeader => Emitted(req, [StartRecvingHeader])
    case EvHeaderReceived => Emitted(req, [HeaderReceived])
    case EvOnPartofBody => Emitted(req.(body := req.body + skipped), [OnPartofBody(skipped)])
    case EvRequestReceived => Emitted(req, [RequestReceived(req)])
  }

  function Emit(req: Request, kinds: seq<EventKind>, skipped: string): Emitted {
    if kinds == [] then Emitted(req, [])
    else
      var front := Emit(req, kinds[..|kinds| - 1], skipped);
      var last := EmitOne(front.req, kinds[|kinds| - 1], skipped);
      Emitted(last.req, front.events + last.events)
  }

  /** Everything the engine does after a handler interrupted the byte loop at the first byte of `input`. */
  function Settle(r: Reaction, input: string): Outcome<Machine, Event>
    requires r.ctx.step <= |input|
  {
    var e := Emit(r.m.req, r.ctx.events, input[..r.ctx.step]);
    var m := r.m.(req := e.req);
    Outcome(if r.ctx.next.Some? then Transit(m, r.ctx.next.value) else m, e.events,
            if r.ctx.step == 0 then 1 else r.ctx.step,
            r.ctx.next.Some? && r.ctx.next.value.state == StateRequestLine,
            r.ctx.err)
  }

  lemma ChunkKeepsBounds(lib: Library, m: Machine, c: char, nLeft: nat)
    requires Inv(m) && nLeft > 0 && m.cur == StateChunk
    ensures var r := HandleChunk(lib, m, c, nLeft);
      && r.ctx.step <= nLeft
      && (!r.ctx.interrupt ==> r.ctx == FRESH && r.m.cur == m.cur && Inv(r.m))
      && (EvOnPartofBody in r.ctx.events ==> r.ctx.step > 0)
  {
    hide HexToSize;
  }

  lemma HandleKeepsBounds(lib: Library, m: Machine, c: char, nLeft: nat)
    requires Inv(m) && nLeft > 0
    ensures var r := Handle(lib, m, c, nLeft);
      && r.ctx.step <= nLeft
      && (!r.ctx.interrupt ==> r.ctx == FRESH && r.m.cur == m.cur && Inv(r.m))
      && (EvOnPartofBody in r.ctx.events ==> r.ctx.step > 0)
  {
    hide HandleChunk, FieldVal, StrToSize, ToHttpMethod, ToHttpVersion, ToUpper, ToLower;
    if m.cur == StateChunk {
      ChunkKeepsBounds(lib, m, c, nLeft);
    }
  }

  /** One iteration of the outer loop of `parse`: bytes go to the current super state until its handler
      interrupts, then events are emitted, the super state changes and skipped bytes are stepped over. */
  function Round(lib: Library, m: Machine, input: string): Outcome<Machine, Event>
    requires Inv(m) && input != []
    decreases |input|
  {
    HandleKeepsBounds(lib, m, input[0], |input|);
    var r := Handle(lib, m, input[0], |input|);
    if r.ctx.interrupt then Settle(r, input)
    else if |input| == 1 then Outcome(r.m, [], 1, false, false)
    else
      var rest := Round(lib, r.m, input[1..]);
      rest.(used := rest.used + 1)
  }

  /** Progress and bounds: an outer iteration consumes at least one byte and never more than there are,
      and leaves block states with bytes still to come. */
  lemma {:induction false} RoundProgress(lib: Library, m: Machine, input: string)
    requires Inv(m) && input != []
    ensures var r := Round(lib, m, input);
      1 <= r.used <= |input| && Inv(r.m)
    decreases |input|
  {
    hide HexToSize, StrToSize, FieldVal, ToHttpMethod, ToHttpVersion, ToUpper, ToLower;
    HandleKeepsBounds(lib, m, input[0], |input|);
    var r := Handle(lib, m, input[0], |input|);
    if !r.ctx.interrupt && |input| > 1 {
      RoundProgress(lib, r.m, input[1..]);
    }
  }

  // ----- the instance handed to the generic engine

  /** `prepare_for_next_req` clears the request object. */
  function Cleared(m: Machine): Machine {
    m.(req := CLEARED)
  }

  function Singles(data: string): seq<Event> {
    if data == "" then [] else [OnPartofBody([data[0]])] + Singles(data[1..])
  }

  function Cut(e: Event): seq<Event> {
    if e.OnPartofBody? then Singles(e.data) else [e]
  }

  function HttpRules(lib: Library): Rules<Machine, Event> {
    Rules((m, input) => if Inv(m) && input != [] then Round(lib, m, input) else Outcome(m, [], 1, false, true),
          Cleared, Inv, Cut)
  }
}
