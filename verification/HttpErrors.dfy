/** Parse errors that do not stop the parser: the size line of a chunk. */
module HttpErrors {
  import opened Wrappers
  import opened Sequences
  import opened HttpText
  import opened HfsmEngine
  import opened HttpMachine
  import opened HttpChunking

  /** The byte that ought to end a chunk's size line comes while the size is not one, or is not a line feed. */
  predicate BadSizeLine(lib: Library, m: Machine, c: char) {
    m.cur == StateChunk && m.chunk.sub == GetInitialCr && (c != '\n' || HexToSize(lib, m.chunk.hex).None?)
  }

  /** A handler reports ParseError without setting the error flag exactly at a bad size line; it never sets
      the flag without reporting. */
  lemma SilentErrors(lib: Library, m: Machine, c: char, nLeft: nat)
    requires Inv(m) && nLeft > 0
    ensures var ctx := Handle(lib, m, c, nLeft).ctx;
      && (EvParseError in ctx.events && !ctx.err <==> BadSizeLine(lib, m, c))
      && (ctx.err ==> EvParseError in ctx.events)
      && (EvParseError in ctx.events ==> ctx.interrupt)
      && (BadSizeLine(lib, m, c) ==> Handle(lib, m, c, nLeft).m == m && ctx.events == [EvParseError] && ctx.next.None?)
  {
    hide HexToSize, FieldVal, StrToSize, ToHttpMethod, ToHttpVersion, ToUpper, ToLower;
  }

  lemma {:induction false} EmittedErrors(req: Request, kinds: seq<EventKind>, skipped: string)
    ensures ParseError in Emit(req, kinds, skipped).events <==> EvParseError in kinds
    decreases |kinds|
  {
    if kinds != [] {
      EmittedErrors(req, kinds[..|kinds| - 1], skipped);
      assert kinds == kinds[..|kinds| - 1] + [kinds[|kinds| - 1]];
    }
  }

  /** One byte fed to the engine. */
  lemma ByteErrors(lib: Library, m: Machine, c: char)
    requires Inv(m)
    ensures var o := HttpRules(lib).round(m, [c]);
      (ParseError in o.events <==> o.err || BadSizeLine(lib, m, c)) && Inv(o.m) && Inv(HttpRules(lib).reset(o.m))
  {
    hide Handle, Settle, BadSizeLine, HttpRules;
    StepIsRound(lib, m, [c]);
    RoundProgress(lib, m, [c]);
    HandleKeepsBounds(lib, m, c, 1);
    SilentErrors(lib, m, c, 1);
    var r := Handle(lib, m, c, 1);
    if r.ctx.interrupt {
      SettledErrors(r, [c]);
    }
    assert Inv(HttpRules(lib).reset(HttpRules(lib).round(m, [c]).m)) by {
      ResetKeepsInv(lib, HttpRules(lib).round(m, [c]).m);
    }
  }

  lemma SettledErrors(r: Reaction, input: string)
    requires r.ctx.step <= |input|
    ensures var o := Settle(r, input);
      (ParseError in o.events <==> EvParseError in r.ctx.events) && o.err == r.ctx.err
  {
    EmittedErrors(r.m.req, r.ctx.events, input[..r.ctx.step]);
  }

  lemma ResetKeepsInv(lib: Library, m: Machine)
    requires Inv(m)
    ensures Inv(HttpRules(lib).reset(m))
  {}

  /** The parser's state after the first `k` bytes. */
  function After(lib: Library, m: Machine, input: string, k: nat): Machine
    requires k <= |input|
  {
    ByteRun(HttpRules(lib), m, input[..k]).m
  }

  /** The bytes of `input` from `m` on include one that is bad where it comes. */
  ghost predicate Meets(lib: Library, m: Machine, input: string, bad: (Machine, char) -> bool) {
    exists k :: 0 <= k < |input| && bad(After(lib, m, input, k), input[k])
  }

  ghost predicate HasBadSizeLine(lib: Library, m: Machine, input: string) {
    Meets(lib, m, input, (m', c) => BadSizeLine(lib, m', c))
  }

  /** Byte by byte, a run has reported an error if and only if an error stopped it or some prefix leaves the
      parser waiting for the end of a size line and the next byte makes that line bad. */
  lemma {:induction false} SilentErrorRun(lib: Library, m: Machine, input: string)
    requires Inv(m)
    ensures var r := ByteRun(HttpRules(lib), m, input);
      ParseError in r.events <==> r.stopped || HasBadSizeLine(lib, m, input)
    decreases |input|
  {
    var p := HttpRules(lib);
    if input != [] {
      ByteErrors(lib, m, input[0]);
    }
    if input != [] && !p.round(m, [input[0]]).err {
      hide HttpRules, BadSizeLine, Meets;
      var o := p.round(m, [input[0]]);
      var m' := if o.complete then p.reset(o.m) else o.m;
      SilentErrorRun(lib, m', input[1..]);
      MeetsStep(lib, m, input, m', (m', c) => BadSizeLine(lib, m', c));
    }
  }

  lemma MeetsStep(lib: Library, m: Machine, input: string, m': Machine, bad: (Machine, char) -> bool)
    requires input != []
    requires var o := HttpRules(lib).round(m, [input[0]]);
      !o.err && m' == if o.complete then HttpRules(lib).reset(o.m) else o.m
    ensures Meets(lib, m, input, bad) <==> bad(m, input[0]) || Meets(lib, m', input[1..], bad)
  {
    hide HttpRules;
    assert After(lib, m, input, 0) == m && input[..0] == [];
    forall k | 0 <= k < |input| - 1
      ensures After(lib, m, input, k + 1) == After(lib, m', input[1..], k) && input[1..][k] == input[k + 1]
    {
      assert input[..k + 1][1..] == input[1..][..k] && input[..k + 1][0] == input[0];
    }
    if Meets(lib, m', input[1..], bad) {
      var k :| 0 <= k < |input[1..]| && bad(After(lib, m', input[1..], k), input[1..][k]);
      assert bad(After(lib, m, input, k + 1), input[k + 1]);
    }
    if Meets(lib, m, input, bad) {
      var k :| 0 <= k < |input| && bad(After(lib, m, input, k), input[k]);
      if k > 0 {
        assert bad(After(lib, m', input[1..], k - 1), input[1..][k - 1]);
      }
    }
  }

  // ----- errors that stop the parser

  /** The end of the header block announces a length that is no number. */
  predicate BadLength(lib: Library, headers: seq<Field>) {
    var len := FieldVal(lib, headers, "content-length");
    len.Some? && StrToSize(lib, len.value).None?
  }

  /** The byte is not the one that has to come here, or the header block ends with a bad length. */
  predicate Rejected(lib: Library, m: Machine, c: char) {
    match m.cur
    case StateRequestLine => m.line.sub == ExpectCrlf && c != '\n'
    case StateHeader =>
      || (m.head.sub == ExpectFieldEnd && c != '\n')
      || (m.head.sub == ExpectHeaderEnd && (c != '\n' || BadLength(lib, m.req.headers)))
    case StateContentLength => false
    case StateChunk =>
      || ((m.chunk.sub == ExpectChunkCr || m.chunk.sub == FinishWaitCr) && c != '\r')
      || ((m.chunk.sub == ExpectChunkLf || m.chunk.sub == FinishWaitLf) && c != '\n')
  }

  /** A handler sets the error flag exactly at such a byte. The parser stays where it is, except that a chunk with
      a bad end is followed by the next one all the same. */
  lemma ErrorsExactly(lib: Library, m: Machine, c: char, nLeft: nat)
    requires Inv(m) && nLeft > 0
    ensures Handle(lib, m, c, nLeft).ctx.err <==> Rejected(lib, m, c)
    ensures Rejected(lib, m, c) ==>
      var r := Handle(lib, m, c, nLeft);
      && r.ctx.interrupt && r.ctx.step == 0 && r.m == m
      && r.ctx.events == (if c == '\n' && m.cur == StateHeader then [EvHeaderReceived, EvParseError]
                          else [EvParseError])
      && r.ctx.next == (if m.cur == StateChunk && m.chunk.sub == ExpectChunkLf then Some(Goto(StateChunk, 0)) else None)
  {
    hide HexToSize, FieldVal, StrToSize, ToHttpMethod, ToHttpVersion, ToUpper, ToLower;
  }

  lemma ByteStops(lib: Library, m: Machine, c: char)
    requires Inv(m)
    ensures var o := HttpRules(lib).round(m, [c]);
      (o.err <==> Rejected(lib, m, c)) && Inv(o.m) && Inv(HttpRules(lib).reset(o.m))
  {
    hide Handle, Settle, Rejected, HttpRules;
    ByteErrors(lib, m, c);
    StepIsRound(lib, m, [c]);
    HandleKeepsBounds(lib, m, c, 1);
    ErrorsExactly(lib, m, c, 1);
    if Handle(lib, m, c, 1).ctx.interrupt {
      SettledErrors(Handle(lib, m, c, 1), [c]);
    }
  }

  ghost predicate IsRejected(lib: Library, m: Machine, input: string) {
    Meets(lib, m, input, (m', c) => Rejected(lib, m', c))
  }

  /** An error stops a run if and only if some prefix leaves the parser waiting for another byte than the one that
      comes next, or at the end of a header block with a bad length. */
  lemma {:induction false} StopsExactly(lib: Library, m: Machine, input: string)
    requires Inv(m)
    ensures ByteRun(HttpRules(lib), m, input).stopped <==> IsRejected(lib, m, input)
    decreases |input|
  {
    var p := HttpRules(lib);
    if input != [] {
      ByteStops(lib, m, input[0]);
      var o := p.round(m, [input[0]]);
      if o.err {
        assert After(lib, m, input, 0) == m;
      } else {
        hide HttpRules, Rejected, Meets;
        var m' := if o.complete then p.reset(o.m) else o.m;
        StopsExactly(lib, m', input[1..]);
        MeetsStep(lib, m, input, m', (m', c) => Rejected(lib, m', c));
      }
    }
  }

  /** However the bytes arrive. */
  lemma RejectsExactly(lib: Library, m: Machine, pieces: seq<string>)
    requires Inv(m)
    ensures Lawful(HttpRules(lib))
    ensures Feed(HttpRules(lib), m, pieces).stopped <==> IsRejected(lib, m, Concat(pieces))
  {
    hide IsRejected, ByteRun, Lawful;
    HttpIsLawful(lib);
    FeedIsByteRun(HttpRules(lib), m, pieces);
    StopsExactly(lib, m, Concat(pieces));
  }

  lemma {:induction false} ExplodedErrors(lib: Library, events: seq<Event>)
    ensures ParseError in Explode(HttpRules(lib), events) <==> ParseError in events
  {
    if events != [] {
      ExplodedErrors(lib, events[1..]);
      if events[0].OnPartofBody? {
        NoErrorInSingles(events[0].data);
      }
    }
  }

  lemma {:induction false} NoErrorInSingles(data: string)
    ensures ParseError !in Singles(data)
  {
    if data != "" {
      NoErrorInSingles(data[1..]);
    }
  }

  /** However the bytes arrive: a run that an error has not stopped has reported ParseError if and only if one
      of its size lines is bad. */
  lemma SilentErrorsExactly(lib: Library, m: Machine, pieces: seq<string>)
    requires Inv(m)
    ensures Lawful(HttpRules(lib))
    ensures var r := Feed(HttpRules(lib), m, pieces);
      ParseError in r.events <==> r.stopped || HasBadSizeLine(lib, m, Concat(pieces))
  {
    hide HasBadSizeLine, ByteRun, Lawful;
    HttpIsLawful(lib);
    var p := HttpRules(lib);
    FeedIsByteRun(p, m, pieces);
    SilentErrorRun(lib, m, Concat(pieces));
    ExplodedErrors(lib, Feed(p, m, pieces).events);
    ExplodedErrors(lib, ByteRun(p, m, Concat(pieces)).events);
  }

  /** The size line "z" is reported, and parsing goes on. */
  lemma SizeLineExample(lib: Library, m: Machine)
    requires Inv(m) && m.cur == StateChunk && m.chunk == Chunk(ExpectLength, "", 0, 0)
    ensures var r := ByteRun(HttpRules(lib), m, "z\r\n");
      !r.stopped && r.events == [ParseError] && r.m == m.(chunk := Chunk(GetInitialCr, "z", 0, 0))
  {
    var p := HttpRules(lib);
    var m1 := m.(chunk := Chunk(ExpectLength, "z", 0, 0));
    var m2 := m.(chunk := Chunk(GetInitialCr, "z", 0, 0));
    assert [] + ['z'] == "z";
    assert p.round(m, ['z']) == Outcome(m1, [], 1, false, false);
    assert p.round(m1, ['\r']) == Outcome(m2, [], 1, false, false);
    BadLast(lib, m2);
    QuietRun(p, m, "z\r\n", m1);
    assert "z\r\n"[1..] == "\r\n";
    QuietRun(p, m1, "\r\n", m2);
    assert "\r\n"[1..] == ['\n'];
    OneByte(p, m2, '\n');
  }

  lemma BadLast(lib: Library, m: Machine)
    requires Inv(m) && m.cur == StateChunk && m.chunk == Chunk(GetInitialCr, "z", 0, 0)
    ensures HttpRules(lib).round(m, ['\n']) == Outcome(m, [ParseError], 1, false, false)
  {
    assert HexToSize(lib, "z").None?;
    EmitTwo(m.req, EvParseError, EvParseError, "\n"[..0]);
    StepIsRound(lib, m, ['\n']);
  }
}
