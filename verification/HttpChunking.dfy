/** The HTTP super states obey the laws of the engine, so HTTP parsing does not depend on chunking. */
module HttpChunking {
  import opened Sequences
  import opened HttpText
  import opened HfsmEngine
  import opened HttpMachine

  predicate InBlock(m: Machine) {
    m.cur == StateContentLength || (m.cur == StateChunk && m.chunk.sub == ExpectChunkData)
  }

  function Missing(m: Machine): nat
    requires Inv(m) && InBlock(m)
  {
    if m.cur == StateContentLength then m.fixed.want - m.fixed.got else m.chunk.want - m.chunk.got
  }

  /** Outside blocks a handler does not look at how much input is left. */
  lemma HandleIgnoresLeft(lib: Library, m: Machine, c: char, n: nat, n': nat)
    requires Inv(m) && !InBlock(m)
    ensures Handle(lib, m, c, n) == Handle(lib, m, c, n') && Handle(lib, m, c, n).ctx.step == 0
  {}

  lemma SettleIgnoresTail(r: Reaction, input: string, input': string)
    requires r.ctx.step <= |input| && r.ctx.step <= |input'|
    requires input[..r.ctx.step] == input'[..r.ctx.step]
    ensures Settle(r, input) == Settle(r, input')
  {}

  lemma StepIsRound(lib: Library, m: Machine, input: string)
    requires Inv(m) && input != []
    ensures HttpRules(lib).round(m, input) == Round(lib, m, input)
  {}

  /** What the engine does with `data` when it is exactly what a block still lacks, or less. */
  function TakeBlock(m: Machine, data: string): Outcome<Machine, Event>
    requires Inv(m) && InBlock(m) && 0 < |data| <= Missing(m)
  {
    var req := m.req.(body := m.req.body + data);
    var last := |data| == Missing(m);
    if m.cur == StateContentLength then
      var m' := m.(fixed := m.fixed.(got := m.fixed.got + |data|), req := req);
      if last then Outcome(Transit(m', Goto(StateRequestLine, 0)), [OnPartofBody(data), RequestReceived(req)],
                           |data|, true, false)
      else Outcome(m', [OnPartofBody(data)], |data|, false, false)
    else
      var chunk := m.chunk.(got := m.chunk.got + |data|, sub := if last then ExpectChunkCr else m.chunk.sub);
      Outcome(m.(chunk := chunk, req := req), [OnPartofBody(data)], |data|, false, false)
  }

  lemma EmitTwo(req: Request, k0: EventKind, k1: EventKind, skipped: string)
    ensures Emit(req, [k0], skipped) == EmitOne(req, k0, skipped)
    ensures var e := EmitOne(req, k0, skipped);
      var e' := EmitOne(e.req, k1, skipped);
      Emit(req, [k0, k1], skipped) == Emitted(e'.req, e.events + e'.events)
  {
    assert [k0][..0] == [];
    assert [k0, k1][..1] == [k0];
  }

  lemma BlockRound(lib: Library, m: Machine, input: string)
    requires Inv(m) && InBlock(m) && input != []
    ensures Round(lib, m, input)
         == TakeBlock(m, if |input| <= Missing(m) then input else input[..Missing(m)])
  {
    var r := Handle(lib, m, input[0], |input|);
    var data := if |input| <= Missing(m) then input else input[..Missing(m)];
    assert input[..r.ctx.step] == data;
    EmitTwo(r.m.req, EvOnPartofBody, EvRequestReceived, data);
  }

  /** Stepping over a block in one go is the same as taking its bytes one by one. */
  lemma {:induction false} BlockIsByteRun(lib: Library, m: Machine, data: string)
    requires Inv(m) && InBlock(m) && 0 < |data| <= Missing(m)
    ensures Same(HttpRules(lib), ByteRun(HttpRules(lib), m, data), AsRun(HttpRules(lib), TakeBlock(m, data)))
    decreases |data|
  {
    hide Round, ByteRun, Explode, HttpRules, TakeBlock;
    var p := HttpRules(lib);
    BlockRound(lib, m, [data[0]]);
    StepIsRound(lib, m, [data[0]]);
    if |data| == 1 {
      assert data == [data[0]];
      OneByte(p, m, data[0]);
    } else {
      var o := TakeBlock(m, [data[0]]);
      TakeBlockCons(lib, m, data);
      BlockIsByteRun(lib, o.m, data[1..]);
      ByteRunCons(p, m, data);
      var first := Run(o.m, o.events, false);
      SameThen(p, first, ByteRun(p, o.m, data[1..]), first, AsRun(p, TakeBlock(o.m, data[1..])));
    }
  }

  /** Taking a block in one go, or its first byte and then the rest. */
  lemma TakeBlockCons(lib: Library, m: Machine, data: string)
    requires Inv(m) && InBlock(m) && 1 < |data| <= Missing(m)
    ensures var o := TakeBlock(m, [data[0]]);
      && !o.complete && !o.err && Inv(o.m) && InBlock(o.m) && |data| - 1 <= Missing(o.m)
      && Same(HttpRules(lib), Then(Run(o.m, o.events, false), AsRun(HttpRules(lib), TakeBlock(o.m, data[1..]))),
              AsRun(HttpRules(lib), TakeBlock(m, data)))
  {
    var o := TakeBlock(m, [data[0]]);
    assert m.req.body + data == (m.req.body + [data[0]]) + data[1..];
    var rest := TakeBlock(o.m, data[1..]).events;
    ExplodeConcat(HttpRules(lib), o.events, rest);
    assert rest == [OnPartofBody(data[1..])] + rest[1..];
    BlockEvents(lib, data, rest[1..]);
  }

  lemma BlockEvents(lib: Library, data: string, rest: seq<Event>)
    requires |data| > 1
    ensures Explode(HttpRules(lib), [OnPartofBody(data)] + rest)
         == Explode(HttpRules(lib), [OnPartofBody([data[0]])])
           + Explode(HttpRules(lib), [OnPartofBody(data[1..])] + rest)
  {
    var p := HttpRules(lib);
    assert ([OnPartofBody(data)] + rest)[1..] == rest;
    assert ([OnPartofBody(data[1..])] + rest)[1..] == rest;
    assert Singles([data[0]]) == [OnPartofBody([data[0]])];
    assert [OnPartofBody([data[0]])][1..] == [];
  }

  lemma RoundIsByteRun(lib: Library, m: Machine, input: string)
    requires Inv(m) && input != []
    ensures LawfulAt(HttpRules(lib), m, input)
    decreases |input|, 2
  {
    var p := HttpRules(lib);
    RoundProgress(lib, m, input);
    StepIsRound(lib, m, input);
    if InBlock(m) {
      BlockRound(lib, m, input);
      BlockIsByteRun(lib, m, if |input| <= Missing(m) then input else input[..Missing(m)]);
      assert input[..|input|] == input;
    } else {
      OpenRoundIsByteRun(lib, m, input);
    }
  }

  lemma OpenRoundIsByteRun(lib: Library, m: Machine, input: string)
    requires Inv(m) && !InBlock(m) && input != []
    ensures LawfulAt(HttpRules(lib), m, input)
    decreases |input|, 1
  {
    var p := HttpRules(lib);
    HandleKeepsBounds(lib, m, input[0], |input|);
    HandleIgnoresLeft(lib, m, input[0], |input|, 1);
    var r := Handle(lib, m, input[0], 1);
    SettleIgnoresTail(r, input, [input[0]]);
    StepIsRound(lib, m, input);
    StepIsRound(lib, m, [input[0]]);
    RoundProgress(lib, m, input);
    var o := Round(lib, m, input);
    if r.ctx.interrupt || |input| == 1 {
      assert input[..1] == [input[0]];
      OneByte(p, m, input[0]);
    } else {
      QuietByte(lib, m, input);
    }
  }

  /** A byte that does not interrupt the byte loop is a round of its own with no events. */
  lemma QuietByte(lib: Library, m: Machine, input: string)
    requires Inv(m) && !InBlock(m) && |input| > 1
    requires !Handle(lib, m, input[0], |input|).ctx.interrupt
    ensures LawfulAt(HttpRules(lib), m, input)
    decreases |input|, 0
  {
    var p := HttpRules(lib);
    HandleKeepsBounds(lib, m, input[0], |input|);
    HandleIgnoresLeft(lib, m, input[0], |input|, 1);
    StepIsRound(lib, m, [input[0]]);
    StepIsRound(lib, m, input);
    var m' := Handle(lib, m, input[0], 1).m;
    var tail := input[1..];
    StepIsRound(lib, m', tail);
    RoundIsByteRun(lib, m', tail);
    var rest := Round(lib, m', tail);
    assert input[..rest.used + 1][1..] == tail[..rest.used];
    QuietRun(p, m, input[..rest.used + 1], m');
  }

  lemma OneByte<M, E>(p: Rules<M, E>, m: M, c: char)
    ensures ByteRun(p, m, [c]) == AsRun(p, p.round(m, [c]))
  {
    var o := p.round(m, [c]);
    assert o.events + [] == o.events;
  }

  lemma QuietRun<M, E>(p: Rules<M, E>, m: M, input: string, m': M)
    requires input != [] && p.round(m, [input[0]]) == Outcome(m', [], 1, false, false)
    ensures ByteRun(p, m, input) == ByteRun(p, m', input[1..])
  {
    var rest := ByteRun(p, m', input[1..]);
    assert [] + rest.events == rest.events;
  }

  lemma HttpIsLawful(lib: Library)
    ensures Lawful(HttpRules(lib))
  {
    forall m: Machine, input: string | HttpRules(lib).inv(m) && input != []
      ensures LawfulAt(HttpRules(lib), m, input)
    {
      RoundIsByteRun(lib, m, input);
    }
  }

  // ----- event sequences with adjacent body payloads concatenated

  function Merge(events: seq<Event>): seq<Event> {
    if events == [] then [] else MergeFront(events[0], Merge(events[1..]))
  }

  function MergeFront(e: Event, merged: seq<Event>): seq<Event> {
    if !e.OnPartofBody? then [e] + merged
    else if e.data == "" then merged
    else if merged != [] && merged[0].OnPartofBody? then [OnPartofBody(e.data + merged[0].data)] + merged[1..]
    else [e] + merged
  }

  lemma {:induction false} MergeOfSingles(data: string, rest: seq<Event>)
    ensures Merge(Singles(data) + rest) == MergeFront(OnPartofBody(data), Merge(rest))
  {
    if data == "" {
      assert Singles(data) + rest == rest;
    } else {
      assert (Singles(data) + rest)[1..] == Singles(data[1..]) + rest;
      MergeOfSingles(data[1..], rest);
      MergeFrontTwice([data[0]], data[1..], Merge(rest));
      assert data == [data[0]] + data[1..];
    }
  }

  lemma MergeFrontTwice(a: string, b: string, merged: seq<Event>)
    requires a != ""
    ensures MergeFront(OnPartofBody(a), MergeFront(OnPartofBody(b), merged)) == MergeFront(OnPartofBody(a + b), merged)
  {
    if b == "" {
      assert a + b == a;
    } else if merged != [] && merged[0].OnPartofBody? {
      assert a + (b + merged[0].data) == (a + b) + merged[0].data;
    }
  }

  lemma {:induction false} MergeExplode(lib: Library, events: seq<Event>)
    ensures Merge(Explode(HttpRules(lib), events)) == Merge(events)
  {
    if events != [] {
      MergeExplode(lib, events[1..]);
      var rest := Explode(HttpRules(lib), events[1..]);
      if events[0].OnPartofBody? {
        MergeOfSingles(events[0].data, rest);
      } else {
        assert ([events[0]] + rest)[1..] == rest;
      }
    }
  }

  /** The main result for HTTP: for every byte string and every two ways of cutting it into successive
      inputs, the parser and request end in the same state, a parse error stops both or neither, and
      the events are the same once adjacent body payloads are concatenated. */
  lemma HttpChunkingIndependence(lib: Library, m: Machine, pieces: seq<string>, pieces': seq<string>)
    requires Inv(m) && Concat(pieces) == Concat(pieces')
    ensures Lawful(HttpRules(lib))
    ensures var a := Feed(HttpRules(lib), m, pieces);
      var b := Feed(HttpRules(lib), m, pieces');
      a.m == b.m && a.stopped == b.stopped && Merge(a.events) == Merge(b.events)
  {
    HttpIsLawful(lib);
    ChunkingIndependence(HttpRules(lib), m, pieces, pieces');
    MergeExplode(lib, Feed(HttpRules(lib), m, pieces).events);
    MergeExplode(lib, Feed(HttpRules(lib), m, pieces').events);
  }
}
