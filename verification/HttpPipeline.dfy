/** What a call of `parse` and the loop around it take out of a stream of requests. */
module HttpPipeline {
  import opened HttpText
  import opened HfsmEngine
  import opened HttpMachine
  import opened HttpChunking
  import opened HttpBoundaries
  import opened HttpRoundTrip
  import opened RequestLoop

  // ----- counting requests

  function Requests(events: seq<Event>): nat {
    if events == [] then 0 else (if events[0].RequestReceived? then 1 else 0) + Requests(events[1..])
  }

  lemma {:induction false} RequestsConcat(a: seq<Event>, b: seq<Event>)
    ensures Requests(a + b) == Requests(a) + Requests(b)
  {
    if a == [] {
      assert a + b == b;
    } else {
      assert (a + b)[0] == a[0] && (a + b)[1..] == a[1..] + b;
      RequestsConcat(a[1..], b);
    }
  }

  lemma {:induction false} NoRequestInSingles(data: string)
    ensures Requests(Singles(data)) == 0
  {
    if data != "" {
      NoRequestInSingles(data[1..]);
    }
  }

  lemma {:induction false} RequestsExplode(lib: Library, events: seq<Event>)
    ensures Requests(Explode(HttpRules(lib), events)) == Requests(events)
  {
    if events != [] {
      RequestsExplode(lib, events[1..]);
      RequestsConcat(Cut(events[0]), Explode(HttpRules(lib), events[1..]));
      if events[0].OnPartofBody? {
        NoRequestInSingles(events[0].data);
      }
    }
  }

  function Completions(kinds: seq<EventKind>): nat {
    if kinds == [] then 0
    else Completions(kinds[..|kinds| - 1]) + if kinds[|kinds| - 1] == EvRequestReceived then 1 else 0
  }

  lemma {:induction false} EmittedRequests(req: Request, kinds: seq<EventKind>, skipped: string)
    ensures Requests(Emit(req, kinds, skipped).events) == Completions(kinds)
    decreases |kinds|
  {
    if kinds != [] {
      var front := Emit(req, kinds[..|kinds| - 1], skipped);
      EmittedRequests(req, kinds[..|kinds| - 1], skipped);
      RequestsConcat(front.events, EmitOne(front.req, kinds[|kinds| - 1], skipped).events);
    }
  }

  lemma HandledRequests(lib: Library, m: Machine, c: char, nLeft: nat)
    requires Inv(m) && nLeft > 0
    ensures var ctx := Handle(lib, m, c, nLeft).ctx;
      var ends := ctx.next.Some? && ctx.next.value.state == StateRequestLine;
      Completions(ctx.events) == (if ends then 1 else 0) && (ends ==> !ctx.err)
  {
    hide HexToSize, FieldVal, StrToSize, ToHttpMethod, ToHttpVersion, ToUpper, ToLower;
    assert Completions([EvHeaderReceived, EvRequestReceived]) == 1 by {
      CompletionsOfTwo(EvHeaderReceived, EvRequestReceived);
    }
    assert Completions([EvOnPartofBody, EvRequestReceived]) == 1 by {
      CompletionsOfTwo(EvOnPartofBody, EvRequestReceived);
    }
    assert Completions([EvHeaderReceived, EvParseError]) == 0 by { CompletionsOfTwo(EvHeaderReceived, EvParseError); }
  }

  lemma CompletionsOfTwo(a: EventKind, b: EventKind)
    ensures Completions([a, b]) == (if a == EvRequestReceived then 1 else 0) + if b == EvRequestReceived then 1 else 0
  {
    assert [a, b][..1] == [a] && [a][..0] == [] && Completions([a][..0]) == 0;
    assert Completions([a]) == if a == EvRequestReceived then 1 else 0;
  }

  /** An iteration of `parse` reports one request if it completes one, and none otherwise. */
  lemma {:induction false} RoundRequests(lib: Library, m: Machine, input: string)
    requires Inv(m) && input != []
    ensures var o := Round(lib, m, input);
      Requests(o.events) == (if o.complete then 1 else 0) && (o.complete ==> !o.err)
    decreases |input|
  {
    hide Handle, Inv, Emit;
    HandleKeepsBounds(lib, m, input[0], |input|);
    HandledRequests(lib, m, input[0], |input|);
    var r := Handle(lib, m, input[0], |input|);
    if r.ctx.interrupt {
      EmittedRequests(r.m.req, r.ctx.events, input[..r.ctx.step]);
    } else if |input| > 1 {
      RoundRequests(lib, r.m, input[1..]);
    }
  }

  /** So does a call of `parse`. */
  lemma {:induction false} ParseRequests(lib: Library, m: Machine, input: string)
    requires Inv(m) && Lawful(HttpRules(lib))
    ensures var o := Parse(HttpRules(lib), m, input);
      Requests(o.events) == (if o.complete then 1 else 0) && (o.complete ==> !o.err)
    decreases |input|
  {
    hide Round, Same, ByteRun, Inv;
    if input != [] {
      StepIsRound(lib, m, input);
      RoundProgress(lib, m, input);
      RoundRequests(lib, m, input);
      var r := Round(lib, m, input);
      if !r.complete && !r.err {
        ParseRequests(lib, r.m, input[r.used..]);
        RequestsConcat(r.events, Parse(HttpRules(lib), r.m, input[r.used..]).events);
      }
    }
  }

  /** How many requests a run completes, byte by byte. */
  function Completed(lib: Library, m: Machine, bytes: string): nat {
    Requests(ByteRun(HttpRules(lib), m, bytes).events)
  }

  lemma CompletedGrows(lib: Library, m: Machine, a: string, b: string)
    ensures Completed(lib, m, a) <= Completed(lib, m, a + b)
    ensures ByteRun(HttpRules(lib), m, a).stopped ==> ByteRun(HttpRules(lib), m, a + b).stopped
  {
    hide HttpRules, ByteRun, Requests;
    var ra := ByteRun(HttpRules(lib), m, a);
    ByteRunConcat(HttpRules(lib), m, a, b);
    RequestsConcat(ra.events, ByteRun(HttpRules(lib), ra.m, b).events);
  }

  lemma ByteKeepsClear(lib: Library, m: Machine, c: char)
    requires Inv(m) && LineClear(m)
    ensures var o := HttpRules(lib).round(m, [c]);
      && Inv(o.m) && LineClear(o.m) && HttpRules(lib).reset(o.m) == Cleared(o.m)
      && Inv(Cleared(o.m)) && LineClear(Cleared(o.m)) && (AtStart(Cleared(o.m)) <==> AtStart(o.m))
      && Requests(o.events) == (if o.complete then 1 else 0)
      && (!o.complete && !o.err ==> !AtStart(o.m))
  {
    hide Round;
    StepIsRound(lib, m, [c]);
    RoundProgress(lib, m, [c]);
    RoundBoundary(lib, m, [c]);
    RoundRequests(lib, m, [c]);
  }

  lemma {:induction false} RunKeepsClear(lib: Library, m: Machine, bytes: string)
    requires Inv(m) && LineClear(m)
    ensures var r := ByteRun(HttpRules(lib), m, bytes); Inv(r.m) && LineClear(r.m)
    decreases |bytes|
  {
    hide HttpRules, Inv, LineClear, AtStart, Cleared;
    if bytes != "" {
      ByteKeepsClear(lib, m, bytes[0]);
      var o := HttpRules(lib).round(m, [bytes[0]]);
      if !o.err {
        RunKeepsClear(lib, if o.complete then HttpRules(lib).reset(o.m) else o.m, bytes[1..]);
      }
    }
  }

  /** A run that ends at the start of a request has completed one with its last byte. */
  lemma LastByteCompletes(lib: Library, m: Machine, front: string, c: char)
    requires Inv(m) && LineClear(m)
    requires var r := ByteRun(HttpRules(lib), m, front + [c]); !r.stopped && AtStart(r.m)
    ensures Completed(lib, m, front + [c]) == Completed(lib, m, front) + 1
  {
    hide HttpRules, ByteRun, Requests, Inv, LineClear, AtStart, Cleared;
    var r := ByteRun(HttpRules(lib), m, front);
    RunKeepsClear(lib, m, front);
    ByteRunConcat(HttpRules(lib), m, front, [c]);
    OneByte(HttpRules(lib), r.m, c);
    ByteKeepsClear(lib, r.m, c);
    RequestsConcat(r.events, ByteRun(HttpRules(lib), r.m, [c]).events);
  }

  /** How far a call of `parse` gets: to the byte that completes a request, if there is one before an error. */
  lemma CallStopsAtFirst(lib: Library, m: Machine, input: string)
    requires Inv(m) && LineClear(m) && input != ""
    ensures var o := Call(lib, m, input);
      && Completed(lib, m, input[..o.used]) == (if o.complete then 1 else 0)
      && (o.complete ==> !o.err && Completed(lib, m, input[..o.used - 1]) == 0)
      && (o.err ==> ByteRun(HttpRules(lib), m, input[..o.used]).stopped)
      && (o.complete ==> Explode(HttpRules(lib), ByteRun(HttpRules(lib), m, input[..o.used]).events)
                         == Explode(HttpRules(lib), o.events)
                         && ByteRun(HttpRules(lib), m, input[..o.used]).m == Cleared(o.m))
  {
    hide HttpRules, Parse, ByteRun, Requests, AtStart, LineClear, Inv, Explode, Completed;
    var o := Call(lib, m, input);
    StartsClear(lib, m);
    ParseIsByteRun(HttpRules(lib), m, input);
    ParseRequests(lib, m, input);
    ParseBoundary(lib, m, input);
    var bytes := input[..o.used];
    SameCount(lib, m, bytes, o.events);
    if o.complete {
      StartsClear(lib, o.m);
      assert bytes == bytes[..o.used - 1] + [bytes[o.used - 1]];
      LastByteCompletes(lib, m, bytes[..o.used - 1], bytes[o.used - 1]);
      assert bytes[..o.used - 1] == input[..o.used - 1];
    }
  }

  lemma StartsClear(lib: Library, m: Machine)
    ensures HttpRules(lib).inv(m) == Inv(m) && HttpRules(lib).reset(m) == Cleared(m)
    ensures (AtStart(Cleared(m)) <==> AtStart(m))
  {}

  lemma SameCount(lib: Library, m: Machine, bytes: string, events: seq<Event>)
    requires Explode(HttpRules(lib), ByteRun(HttpRules(lib), m, bytes).events) == Explode(HttpRules(lib), events)
    ensures Completed(lib, m, bytes) == Requests(events)
  {
    hide HttpRules, Explode, ByteRun, Requests;
    RequestsExplode(lib, events);
    RequestsExplode(lib, ByteRun(HttpRules(lib), m, bytes).events);
  }

  // ----- streams of requests

  lemma OneRequest(msg: Message)
    ensures Requests(ByteEvents(msg)) == 1
  {
    hide Parsed, Singles, Requests, Started;
    var start, data := Started(msg) + [HeaderReceived], Singles(BodyData(msg.body));
    NoneBeforeHeader(msg);
    NoRequestInSingles(BodyData(msg.body));
    RequestsConcat(start + data, [RequestReceived(Parsed(msg))]);
    RequestsConcat(start, data);
    OneEvent(RequestReceived(Parsed(msg)));
  }

  lemma OneEvent(e: Event)
    ensures Requests([e]) == if e.RequestReceived? then 1 else 0
  {
    assert [e][1..] == [] && Requests([]) == 0;
  }

  lemma NoneBeforeHeader(msg: Message)
    ensures Requests(Started(msg) + [HeaderReceived]) == 0
  {
    OneEvent(StartRecvingHeader);
    OneEvent(HeaderReceived);
    RequestsConcat(Started(msg), [HeaderReceived]);
    assert Requests([]) == 0;
  }

  /** A call of `parse` on a printed request with anything behind it takes exactly the request. */
  lemma TakesFirst(lib: Library, m: Machine, msg: Message, more: string)
    requires Inv(m) && Idle(m) && WellFormed(msg) && msg.fields != []
    ensures var o := Call(lib, m, Print(msg) + more);
      && o.complete && !o.err && o.used == |Print(msg)| && Idle(Cleared(o.m))
      && Explode(HttpRules(lib), o.events) == ByteEvents(msg)
  {
    hide HttpRules, ByteRun, Requests, Inv, WellFormed, ByteEvents, Explode, Completed, Call;
    var text, input := Print(msg), Print(msg) + more;
    var n := |text|;
    var m' := MessageEats(lib, m, msg);
    OneRequest(msg);
    IdleIsStart(m);
    IdleIsStart(m');
    RequestsExplode(lib, ByteRun(HttpRules(lib), m, text).events);
    assert Completed(lib, m, text) == 1 by { CompletedIs(lib, m, text); }
    assert text == text[..n - 1] + [text[n - 1]];
    LastByteCompletes(lib, m, text[..n - 1], text[n - 1]);
    var o := Call(lib, m, input);
    CallStopsAtFirst(lib, m, input);
    if o.used < n {
      assert text[..n - 1] == input[..o.used] + text[o.used..n - 1] && text == input[..o.used] + text[o.used..];
      CompletedGrows(lib, m, input[..o.used], text[o.used..n - 1]);
      CompletedGrows(lib, m, input[..o.used], text[o.used..]);
    } else if o.used > n {
      assert input[..o.used] == text + input[n..o.used] && input[..o.used - 1] == text + input[n..o.used - 1];
      CompletedGrows(lib, m, text, input[n..o.used]);
      CompletedGrows(lib, m, text, input[n..o.used - 1]);
    }
    assert input[..n] == text;
  }

  lemma CompletedIs(lib: Library, m: Machine, bytes: string)
    ensures Completed(lib, m, bytes) == Requests(ByteRun(HttpRules(lib), m, bytes).events)
  {}

  lemma IdleIsStart(m: Machine)
    requires Idle(m)
    ensures AtStart(m) && LineClear(m)
  {}

  lemma {:induction false} PrintedNext(msgs: seq<Message>, k: nat)
    requires k < |msgs|
    ensures PrintAll(msgs[k..]) == Print(msgs[k]) + PrintAll(msgs[k + 1..])
  {
    assert msgs[k..][0] == msgs[k] && msgs[k..][1..] == msgs[k + 1..];
  }

  /** While the response side moves on, requests are taken one after the other; when it is blocked or fails, the
      loop ends with the request in question waiting, and the next ones are not looked at. */
  lemma {:induction false} ServesUntilHeld(
    lib: Library, m: Machine, msgs: seq<Message>, replies: nat -> Reply, i: nat, last: nat, gap: bool)
    requires Inv(m) && Idle(m) && forall j :: 0 <= j < |msgs| ==> WellFormed(msgs[j]) && msgs[j].fields != []
    requires i <= last < i + |msgs| && replies(last) != MoveOn && forall j :: i <= j < last ==> replies(j) == MoveOn
    ensures var s := Serve(lib, m, PrintAll(msgs), replies, i, gap);
      && !s.overran && s.waiting && s.err == (replies(last) == Failed) && s.rest == PrintAll(msgs[last - i + 1..])
      && Merge(s.events) == AllEvents(msgs[..last - i + 1])
    decreases last - i
  {
    hide Serve, Call, Inv, WellFormed, Merge, ByteEvents, AllEvents, Print, EventsOf, PrintAll;
    var n := last - i;
    PrintedNext(msgs, 0);
    assert msgs[0..] == msgs;
    var more := PrintAll(msgs[1..]);
    TakesFirst(lib, m, msgs[0], more);
    var o := Call(lib, m, Print(msgs[0]) + more);
    ServeTurn(lib, m, PrintAll(msgs), replies, i, gap);
    assert (Print(msgs[0]) + more)[o.used..] == more;
    FirstOnly(msgs);
    if n == 0 {
      TurnMerges(lib, msgs[0], o.events, [], []);
      assert o.events + [] == o.events && EventsOf(msgs[0]) + [] == EventsOf(msgs[0]);
    } else {
      ClearedKeepsInv(o.m);
      ServesUntilHeld(lib, Cleared(o.m), msgs[1..], replies, i + 1, last, gap);
      var s := Serve(lib, Cleared(o.m), more, replies, i + 1, gap);
      assert msgs[1..][n..] == msgs[n + 1..] && msgs[1..][..n] == msgs[..n + 1][1..] && msgs[..n + 1][0] == msgs[0];
      TurnMerges(lib, msgs[0], o.events, s.events, msgs[1..][..n]);
      AllEventsCons(msgs[..n + 1]);
    }
  }

  lemma FirstOnly(msgs: seq<Message>)
    requires msgs != []
    ensures AllEvents([]) == [] && AllEvents(msgs[..1]) == EventsOf(msgs[0]) && Merge([]) == []
  {
    hide EventsOf;
    assert msgs[..1][1..] == [] && AllEvents(msgs[..1]) == EventsOf(msgs[0]) + AllEvents([]);
  }

  lemma AllEventsCons(msgs: seq<Message>)
    requires msgs != []
    ensures AllEvents(msgs) == EventsOf(msgs[0]) + AllEvents(msgs[1..])
  {}

  /** The events of a call that took one request, before those of other requests. */
  lemma TurnMerges(lib: Library, msg: Message, events: seq<Event>, tail: seq<Event>, rest: seq<Message>)
    requires Explode(HttpRules(lib), events) == ByteEvents(msg) && Merge(tail) == AllEvents(rest)
    ensures Merge(events + tail) == EventsOf(msg) + AllEvents(rest)
  {
    hide Explode, Merge, ByteEvents, EventsOf, AllEvents, HttpRules;
    MergeAll(rest);
    var p := HttpRules(lib);
    MergeExplode(lib, events + tail);
    ExplodeConcat(p, events, tail);
    MergeExplode(lib, tail);
    MergeAppend(ByteEvents(msg), Explode(p, tail), AllEvents(rest));
    MergeOne(msg, AllEvents(rest));
  }

  /** How many of `n` answers, from the `i`-th on, say that the response side moves on. */
  function Moved(replies: nat -> Reply, i: nat, n: nat): nat
    decreases n
  {
    if n == 0 then 0 else (if replies(i) == MoveOn then 1 else 0) + Moved(replies, i + 1, n - 1)
  }

  lemma {:induction false} MovedGrows(replies: nat -> Reply, i: nat, a: nat, b: nat)
    requires a <= b
    ensures Moved(replies, i, a) <= Moved(replies, i, b)
    decreases a
  {
    if a > 0 {
      MovedGrows(replies, i + 1, a - 1, b - 1);
    }
  }

  /** Whatever the bytes are, of the requests reported all but one that waits were answered by moving on. */
  lemma {:induction false} ReportedAreAnswered(
    lib: Library, m: Machine, input: string, replies: nat -> Reply, i: nat, gap: bool)
    requires Inv(m)
    ensures var s := Serve(lib, m, input, replies, i, gap);
      Requests(s.events) <= Moved(replies, i, |input|) + if s.waiting then 1 else 0
    decreases |input|
  {
    hide Call, Inv, Serve, Requests;
    if input == "" {
      NothingServed(lib, m, replies, i, gap);
    } else {
      var o := Call(lib, m, input);
      ServeTurn(lib, m, input, replies, i, gap);
      CallRequests(lib, m, input);
      var turn := Turn(lib, m, input, replies(i), gap);
      if !turn.waiting && !turn.err && !turn.overran {
        ReportedAreAnswered(lib, turn.m, turn.rest, replies, i + 1, gap);
        MovedGrows(replies, i + 1, |turn.rest|, |input| - 1);
        RequestsConcat(turn.events, Serve(lib, turn.m, turn.rest, replies, i + 1, gap).events);
      }
    }
  }

  lemma NothingServed(lib: Library, m: Machine, replies: nat -> Reply, i: nat, gap: bool)
    requires Inv(m)
    ensures Requests([]) == 0 && Serve(lib, m, "", replies, i, gap).events == []
  {}

  lemma CallRequests(lib: Library, m: Machine, input: string)
    requires Inv(m)
    ensures var o := Call(lib, m, input); Requests(o.events) == if o.complete then 1 else 0
    ensures Requests([]) == 0
  {
    var o := Call(lib, m, input);
    ParseRequests(lib, m, input);
  }
}
