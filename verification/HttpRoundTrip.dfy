/** Requests printed in the form of RFC 2616 sections 3.6.1, 4.4 and 5.1 parse back to themselves,
    pipelined and in any pieces. */
module HttpRoundTrip {
  import opened Wrappers
  import opened Sequences
  import opened HttpText
  import opened HfsmEngine
  import opened HttpMachine
  import opened HttpChunking

  // ----- messages and how they are printed

  datatype Piece = Piece(size: string, data: string)
  datatype Body = NoBody | Sized(data: string) | Chunked(pieces: seq<Piece>, lastSize: string)
  /** A header field, printed with or without a blank behind the colon. */
  datatype Header = Header(key: string, val: string, blank: bool)
  datatype Message = Message(verb: string, uri: string, version: string, fields: seq<Header>, body: Body)

  const CRLF := "\r\n"

  function LineText(msg: Message): string {
    msg.verb + " " + msg.uri + " " + msg.version + CRLF
  }

  function Colon(f: Header): string {
    if f.blank then ": " else ":"
  }

  function FieldText(f: Header): string {
    f.key + Colon(f) + f.val + CRLF
  }

  function FieldsText(fields: seq<Header>): string {
    if fields == [] then "" else FieldText(fields[0]) + FieldsText(fields[1..])
  }

  function PieceText(piece: Piece): string {
    piece.size + CRLF + piece.data + CRLF
  }

  function PiecesText(pieces: seq<Piece>): string {
    if pieces == [] then "" else PieceText(pieces[0]) + PiecesText(pieces[1..])
  }

  function BodyText(body: Body): string {
    match body
    case NoBody => ""
    case Sized(data) => data
    case Chunked(pieces, lastSize) => PiecesText(pieces) + (lastSize + CRLF + CRLF)
  }

  function Print(msg: Message): string {
    LineText(msg) + FieldsText(msg.fields) + CRLF + BodyText(msg.body)
  }

  function PrintAll(msgs: seq<Message>): string {
    if msgs == [] then "" else Print(msgs[0]) + PrintAll(msgs[1..])
  }

  // ----- which messages are well formed

  /** The character that decides whether another field follows becomes part of its name, whatever it is. */
  predicate KeyOk(key: string, first: bool) {
    if first then ':' !in key else key != "" && key[0] != '\r' && ':' !in key[1..]
  }

  /** A value that no blank precedes is not empty and starts with none; its first character is not looked at. */
  predicate ValOk(f: Header) {
    if f.blank then '\r' !in f.val else f.val != "" && f.val[0] != ' ' && '\r' !in f.val[1..]
  }

  predicate FieldOk(f: Header, first: bool) {
    KeyOk(f.key, first) && ValOk(f)
  }

  predicate SizeIs(text: string, base: nat, n: nat)
    requires 2 <= base <= 16
  {
    IsNumeral(text, base) && NumeralValue(text, base) == n && n < SIZE_LIMIT && '\r' !in text
  }

  function Lowered(fields: seq<Header>): seq<Field> {
    if fields == [] then []
    else [Field(ToLower(fields[0].key), ToLower(fields[0].val))] + Lowered(fields[1..])
  }

  predicate PieceOk(piece: Piece) {
    piece.data != "" && SizeIs(piece.size, 16, |piece.data|)
  }

  /** The header fields announce the body that follows. */
  predicate FramingOk(msg: Message) {
    var lengths := ValuesOf(Lowered(msg.fields), "content-length");
    var codings := ValuesOf(Lowered(msg.fields), "transfer-encoding");
    match msg.body
    case NoBody => lengths == [] && codings == []
    case Sized(data) => |lengths| == 1 && SizeIs(lengths[0], 10, |data|)
    case Chunked(pieces, lastSize) =>
      lengths == [] && codings != [] && SizeIs(lastSize, 16, 0) && forall i :: 0 <= i < |pieces| ==> PieceOk(pieces[i])
  }

  predicate WellFormed(msg: Message) {
    && ' ' !in msg.verb && ' ' !in msg.uri
    && '\r' !in msg.version
    && (forall i :: 0 <= i < |msg.fields| ==> FieldOk(msg.fields[i], i == 0))
    && FramingOk(msg)
  }

  // ----- what they should parse back to

  function PiecesData(pieces: seq<Piece>): string {
    if pieces == [] then "" else pieces[0].data + PiecesData(pieces[1..])
  }

  function BodyData(body: Body): string {
    match body
    case NoBody => ""
    case Sized(data) => data
    case Chunked(pieces, _) => PiecesData(pieces)
  }

  function Parsed(msg: Message): Request {
    Request(ToHttpMethod(ToUpper(msg.verb)), msg.uri, ToHttpVersion(ToUpper(msg.version)),
            Lowered(msg.fields), BodyData(msg.body))
  }

  /** The first byte of a request is reported if it belongs to the method. */
  function Started(msg: Message): seq<Event> {
    if msg.verb == "" then [] else [StartRecvingHeader]
  }

  function EventsOf(msg: Message): seq<Event> {
    Started(msg) + [HeaderReceived]
    + (if BodyData(msg.body) == "" then [] else [OnPartofBody(BodyData(msg.body))])
    + [RequestReceived(Parsed(msg))]
  }

  function AllEvents(msgs: seq<Message>): seq<Event> {
    if msgs == [] then [] else EventsOf(msgs[0]) + AllEvents(msgs[1..])
  }

  // ----- reading a text takes the machine from one state to another

  /** The text `s` takes the machine from `m` to `m'` and causes `events`. */
  predicate Eats(lib: Library, m: Machine, s: string, m': Machine, events: seq<Event>) {
    var r := ByteRun(HttpRules(lib), m, s);
    r.m == m' && !r.stopped && Explode(HttpRules(lib), r.events) == events
  }

  lemma EatsThen(lib: Library, m: Machine, a: string, m1: Machine, e1: seq<Event>,
                 b: string, m2: Machine, e2: seq<Event>, s: string, events: seq<Event>)
    requires Eats(lib, m, a, m1, e1) && Eats(lib, m1, b, m2, e2)
    requires s == a + b && events == e1 + e2
    ensures Eats(lib, m, s, m2, events)
  {
    hide HttpRules, ByteRun, Explode;
    var p := HttpRules(lib);
    ByteRunConcat(p, m, a, b);
    ExplodeConcat(p, ByteRun(p, m, a).events, ByteRun(p, m1, b).events);
  }

  lemma EatsNothing(lib: Library, m: Machine)
    ensures Eats(lib, m, "", m, [])
  {}

  lemma EatsQuiet(lib: Library, m: Machine, c: char, m': Machine)
    requires Inv(m) && !InBlock(m) && Handle(lib, m, c, 1) == Reaction(m', FRESH)
    ensures Eats(lib, m, [c], m', [])
  {
    StepIsRound(lib, m, [c]);
    OneByte(HttpRules(lib), m, c);
  }

  /** A byte whose handler interrupts without an error. */
  lemma EatsLoud(lib: Library, m: Machine, c: char, m': Machine, events: seq<Event>)
    requires Inv(m) && !InBlock(m)
    requires var r := Handle(lib, m, c, 1);
      && r.ctx.interrupt && r.ctx.step == 0
      && AsRun(HttpRules(lib), Settle(r, [c])) == Run(m', events, false)
    requires forall e :: e in events ==> !e.OnPartofBody?
    ensures Eats(lib, m, [c], m', events)
  {
    StepIsRound(lib, m, [c]);
    OneByte(HttpRules(lib), m, c);
    ExplodeIsIdentity(lib, events);
  }

  lemma {:induction false} ExplodeIsIdentity(lib: Library, events: seq<Event>)
    requires forall e :: e in events ==> !e.OnPartofBody?
    ensures Explode(HttpRules(lib), events) == events
  {
    if events != [] {
      assert events[0] in events;
      assert forall e :: e in events[1..] ==> e in events;
      ExplodeIsIdentity(lib, events[1..]);
    }
  }

  /** Text that a sub state merely stores, character by character. */
  lemma {:induction false} EatsText(lib: Library, put: string -> Machine, a: string, b: string)
    requires forall t: string :: Inv(put(t)) && !InBlock(put(t))
    requires forall t: string, c: char :: c in b ==> Handle(lib, put(t), c, 1) == Reaction(put(t + [c]), FRESH)
    ensures Eats(lib, put(a), b, put(a + b), [])
    decreases |b|
  {
    EatsNothing(lib, put(a));
    hide Handle, Eats;
    if b == "" {
      assert a + b == a;
    } else {
      var c := b[0];
      EatsQuiet(lib, put(a), c, put(a + [c]));
      EatsText(lib, put, a + [c], b[1..]);
      EatsThen(lib, put(a), [c], put(a + [c]), [], b[1..], put(a + [c] + b[1..]), [],
             [c] + b[1..], []);
      assert a + [c] + b[1..] == a + b;
      assert [c] + b[1..] == b;
    }
  }

  // ----- the request line

  function AfterLine(m: Machine, msg: Message): Machine {
    m.(cur := StateHeader, line := Line(ExpectCrlf, "", "", ""), head := Head(ExpectFieldKey, "", ""),
       req := m.req.(verb := ToHttpMethod(ToUpper(msg.verb)), uri := msg.uri,
                     version := ToHttpVersion(ToUpper(msg.version))))
  }

  function InLine(m: Machine, line: Line): Machine {
    m.(line := line)
  }

  lemma FirstVerbByteEats(lib: Library, m: Machine, c: char)
    requires Inv(m) && Idle(m) && c != ' '
    ensures Eats(lib, m, [c], InLine(m, Line(ExpectMethod, [c], "", "")), [StartRecvingHeader])
  {
    EmitTwo(m.req, EvStartRecvingHeader, EvStartRecvingHeader, "");
    assert [c][..0] == "";
    assert "" + [c] == [c];
    EatsLoud(lib, m, c, InLine(m, Line(ExpectMethod, [c], "", "")), [StartRecvingHeader]);
  }

  lemma VerbEats(lib: Library, m: Machine, verb: string)
    requires Inv(m) && Idle(m) && verb != "" && ' ' !in verb
    ensures Eats(lib, m, verb, InLine(m, Line(ExpectMethod, verb, "", "")), [StartRecvingHeader])
  {
    hide Eats;
    var put := (t: string) => InLine(m, Line(ExpectMethod, [verb[0]] + t, "", ""));
    FirstVerbByteEats(lib, m, verb[0]);
    assert [verb[0]] + "" == [verb[0]];
    assert "" + verb[1..] == verb[1..];
    assert Eats(lib, put(""), verb[1..], put(verb[1..]), []) by {
      forall t: string, c: char | c in verb[1..]
        ensures Handle(lib, put(t), c, 1) == Reaction(put(t + [c]), FRESH)
      {
        assert [verb[0]] + (t + [c]) == [verb[0]] + t + [c];
      }
      EatsText(lib, put, "", verb[1..]);
    }
    EatsThen(lib, m, [verb[0]], put(""), [StartRecvingHeader], verb[1..], put(verb[1..]), [],
             [verb[0]] + verb[1..], [StartRecvingHeader]);
    assert [verb[0]] + verb[1..] == verb;
  }

  /** A blank moves the request line on to its next part. */
  lemma BlankEats(lib: Library, m: Machine, line: Line)
    requires m.cur == StateRequestLine && (line.sub == ExpectMethod || line.sub == ExpectUri)
    ensures Eats(lib, InLine(m, line), " ",
                 InLine(m, line.(sub := if line.sub == ExpectMethod then ExpectUri else ExpectVersion)), [])
  {
    EatsQuiet(lib, InLine(m, line), ' ',
              InLine(m, line.(sub := if line.sub == ExpectMethod then ExpectUri else ExpectVersion)));
  }

  lemma UriEats(lib: Library, m: Machine, verb: string, uri: string)
    requires Inv(m) && m.cur == StateRequestLine && ' ' !in uri
    ensures Eats(lib, InLine(m, Line(ExpectUri, verb, "", "")), uri, InLine(m, Line(ExpectUri, verb, uri, "")), [])
  {
    var put := (t: string) => InLine(m, Line(ExpectUri, verb, t, ""));
    EatsText(lib, put, "", uri);
    assert "" + uri == uri;
  }

  lemma VersionEats(lib: Library, m: Machine, msg: Message)
    requires Inv(m) && m.cur == StateRequestLine && '\r' !in msg.version
    ensures Eats(lib, InLine(m, Line(ExpectVersion, msg.verb, msg.uri, "")), msg.version,
                 InLine(m, Line(ExpectVersion, msg.verb, msg.uri, msg.version)), [])
  {
    var put := (t: string) => InLine(m, Line(ExpectVersion, msg.verb, msg.uri, t));
    EatsText(lib, put, "", msg.version);
    assert "" + msg.version == msg.version;
  }

  lemma LineEndEats(lib: Library, m: Machine, msg: Message)
    requires m.cur == StateRequestLine && m.head.key == "" && m.head.val == ""
    ensures Eats(lib, InLine(m, Line(ExpectVersion, msg.verb, msg.uri, msg.version)), CRLF, AfterLine(m, msg), [])
  {
    hide Eats;
    var m1 := InLine(m, Line(ExpectVersion, msg.verb, msg.uri, msg.version));
    var m2 := InLine(m, Line(ExpectCrlf, msg.verb, msg.uri, msg.version));
    var m3 := AfterLine(m, msg);
    assert Eats(lib, m1, "\r", m2, []) by { EatsQuiet(lib, m1, '\r', m2); }
    assert Eats(lib, m2, "\n", m3, []) by { EatsLoud(lib, m2, '\n', m3, []); }
    EatsThen(lib, m1, "\r", m2, [], "\n", m3, [],
             "\r" + "\n", []);
    assert "\r" + "\n" == CRLF;
  }

  lemma LineEats(lib: Library, m: Machine, msg: Message)
    requires Inv(m) && Idle(m)
    requires ' ' !in msg.verb && ' ' !in msg.uri && '\r' !in msg.version
    ensures Eats(lib, m, LineText(msg), AfterLine(m, msg), Started(msg))
  {
    hide Eats;
    var Message(verb, uri, version, _, _) := msg;
    var start := Started(msg);
    var m1 := InLine(m, Line(ExpectMethod, verb, "", ""));
    var m2 := InLine(m, Line(ExpectUri, verb, "", ""));
    var m3 := InLine(m, Line(ExpectUri, verb, uri, ""));
    var m4 := InLine(m, Line(ExpectVersion, verb, uri, ""));
    var m5 := InLine(m, Line(ExpectVersion, verb, uri, version));
    if verb == "" {
      EatsNothing(lib, m);
    } else {
      VerbEats(lib, m, verb);
    }
    assert Eats(lib, m, verb, m1, start);
    BlankEats(lib, m, Line(ExpectMethod, verb, "", ""));
    EatsThen(lib, m, verb, m1, start, " ", m2, [],
             verb + " ", start);
    UriEats(lib, m, verb, uri);
    EatsThen(lib, m, verb + " ", m2, start, uri, m3, [],
             verb + " " + uri, start);
    BlankEats(lib, m, Line(ExpectUri, verb, uri, ""));
    EatsThen(lib, m, verb + " " + uri, m3, start, " ", m4, [],
             verb + " " + uri + " ", start);
    VersionEats(lib, m, msg);
    EatsThen(lib, m, verb + " " + uri + " ", m4, start, version, m5, [],
             verb + " " + uri + " " + version, start);
    LineEndEats(lib, m, msg);
    EatsThen(lib, m, verb + " " + uri + " " + version, m5, start, CRLF, AfterLine(m, msg), [],
             verb + " " + uri + " " + version + CRLF, start);
  }

  // ----- the header fields

  /** Before the first field, or behind another one. */
  predicate AtField(m: Machine, first: bool) {
    m.cur == StateHeader && m.head == Head(if first then ExpectFieldKey else FieldEnded, "", "")
  }

  function AfterFields(m: Machine, fields: seq<Header>): Machine {
    m.(head := Head(FieldEnded, "", ""), req := m.req.(headers := m.req.headers + Lowered(fields)))
  }

  lemma KeyTextEats(lib: Library, m: Machine, key: string, first: bool)
    requires AtField(m, first) && KeyOk(key, first)
    ensures Eats(lib, m, key, m.(head := Head(ExpectFieldKey, key, "")), [])
  {
    hide Eats;
    var put := (t: string) => m.(head := Head(ExpectFieldKey, t, ""));
    if first {
      EatsText(lib, put, "", key);
      assert "" + key == key;
    } else {
      assert Eats(lib, m, [key[0]], put([key[0]]), []) by { EatsQuiet(lib, m, key[0], put([key[0]])); }
      EatsText(lib, put, [key[0]], key[1..]);
      assert [key[0]] + key[1..] == key;
      EatsThen(lib, m, [key[0]], put([key[0]]), [], key[1..], put(key), [],
               [key[0]] + key[1..], []);
    }
  }

  lemma ColonEats(lib: Library, m: Machine, key: string)
    requires m.cur == StateHeader && m.head == Head(ExpectFieldKey, key, "")
    ensures Eats(lib, m, ": ", m.(head := Head(ExpectFieldVal, key, "")), [])
  {
    hide Eats;
    var colon := m.(head := Head(GetColon, key, ""));
    var m' := m.(head := Head(ExpectFieldVal, key, ""));
    assert Eats(lib, m, ":", colon, []) by { EatsQuiet(lib, m, ':', colon); }
    assert Eats(lib, colon, " ", m', []) by { EatsQuiet(lib, colon, ' ', m'); }
    EatsThen(lib, m, ":", colon, [], " ", m', [],
             ":" + " ", []);
    assert ":" + " " == ": ";
  }

  lemma FieldEndEats(lib: Library, m: Machine, f: Header)
    requires m.cur == StateHeader && m.head == Head(ExpectFieldVal, f.key, f.val)
    ensures Eats(lib, m, CRLF, AfterFields(m, [f]), [])
  {
    hide Eats;
    assert Lowered([f]) == [Field(ToLower(f.key), ToLower(f.val))] + Lowered([]);
    var m' := AfterFields(m, [f]);
    var ended := m'.(head := Head(ExpectFieldEnd, "", ""));
    assert Eats(lib, m, "\r", ended, []) by { EatsQuiet(lib, m, '\r', ended); }
    assert Eats(lib, ended, "\n", m', []) by { EatsQuiet(lib, ended, '\n', m'); }
    EatsThen(lib, m, "\r", ended, [], "\n", m', [],
             "\r" + "\n", []);
    assert "\r" + "\n" == CRLF;
  }

  lemma ValEats(lib: Library, m: Machine, key: string, front: string, val: string)
    requires m.cur == StateHeader && m.head == Head(ExpectFieldVal, key, front) && '\r' !in val
    ensures Eats(lib, m, val, m.(head := Head(ExpectFieldVal, key, front + val)), [])
  {
    var put := (t: string) => m.(head := Head(ExpectFieldVal, key, t));
    EatsText(lib, put, front, val);
  }

  /** A value that follows the colon at once keeps its first character. */
  lemma UnblankedEats(lib: Library, m: Machine, key: string, val: string)
    requires m.cur == StateHeader && m.head == Head(ExpectFieldKey, key, "")
    requires val != "" && val[0] != ' ' && '\r' !in val[1..]
    ensures Eats(lib, m, ":" + val, m.(head := Head(ExpectFieldVal, key, val)), [])
  {
    hide Eats;
    var colon := m.(head := Head(GetColon, key, ""));
    var first := m.(head := Head(ExpectFieldVal, key, [val[0]]));
    var m' := m.(head := Head(ExpectFieldVal, key, val));
    assert "" + [val[0]] == [val[0]] && [val[0]] + val[1..] == val;
    assert Eats(lib, m, ":", colon, []) by { EatsQuiet(lib, m, ':', colon); }
    assert Eats(lib, colon, [val[0]], first, []) by { EatsQuiet(lib, colon, val[0], first); }
    EatsThen(lib, m, ":", colon, [], [val[0]], first, [],
             ":" + [val[0]], []);
    ValEats(lib, first, key, [val[0]], val[1..]);
    EatsThen(lib, m, ":" + [val[0]], first, [], val[1..], m', [],
             ":" + val, []);
  }

  lemma ColonAndValEat(lib: Library, m: Machine, f: Header)
    requires m.cur == StateHeader && m.head == Head(ExpectFieldKey, f.key, "") && ValOk(f)
    ensures Eats(lib, m, Colon(f) + f.val, m.(head := Head(ExpectFieldVal, f.key, f.val)), [])
  {
    hide Eats;
    if f.blank {
      var m2 := m.(head := Head(ExpectFieldVal, f.key, ""));
      ColonEats(lib, m, f.key);
      ValEats(lib, m2, f.key, "", f.val);
      assert "" + f.val == f.val;
      EatsThen(lib, m, ": ", m2, [], f.val, m.(head := Head(ExpectFieldVal, f.key, f.val)), [],
               ": " + f.val, []);
    } else {
      UnblankedEats(lib, m, f.key, f.val);
    }
  }

  lemma FieldEats(lib: Library, m: Machine, f: Header, first: bool)
    requires AtField(m, first) && FieldOk(f, first)
    ensures Eats(lib, m, FieldText(f), AfterFields(m, [f]), [])
  {
    hide Eats;
    var m1 := m.(head := Head(ExpectFieldKey, f.key, ""));
    var m2 := m.(head := Head(ExpectFieldVal, f.key, f.val));
    KeyTextEats(lib, m, f.key, first);
    ColonAndValEat(lib, m1, f);
    EatsThen(lib, m, f.key, m1, [], Colon(f) + f.val, m2, [],
             f.key + (Colon(f) + f.val), []);
    FieldEndEats(lib, m2, f);
    EatsThen(lib, m, f.key + (Colon(f) + f.val), m2, [], CRLF, AfterFields(m, [f]), [],
             f.key + (Colon(f) + f.val) + CRLF, []);
    assert f.key + (Colon(f) + f.val) + CRLF == FieldText(f);
  }

  /** Exactly when a field without a carriage return in its value is stored as printed: if and only if a blank
      precedes the value, or the value is not empty and starts with none. */
  lemma FieldEatsExactly(lib: Library, m: Machine, f: Header, first: bool)
    requires AtField(m, first) && KeyOk(f.key, first) && '\r' !in f.val
    ensures Eats(lib, m, FieldText(f), AfterFields(m, [f]), []) <==> f.blank || (f.val != "" && f.val[0] != ' ')
  {
    hide Eats, HttpRules, Inv, AfterFields;
    if f.blank || (f.val != "" && f.val[0] != ' ') {
      FieldEats(lib, m, f, first);
    } else if f.val == "" {
      var m' := m.(head := Head(ExpectFieldVal, f.key, CRLF));
      var m1 := m.(head := Head(ExpectFieldKey, f.key, ""));
      KeyTextEats(lib, m, f.key, first);
      UnblankedEats(lib, m1, f.key, CRLF);
      EatsThen(lib, m, f.key, m1, [], ":" + CRLF, m', [], f.key + (":" + CRLF), []);
      assert f.key + (":" + CRLF) == FieldText(f);
      NotAfterFields(m, [f], m');
      EatsOnce(lib, m, FieldText(f), m', AfterFields(m, [f]));
    } else {
      var g := Header(f.key, f.val[1..], true);
      assert FieldText(g) == FieldText(f);
      FieldEats(lib, m, g, first);
      OtherValue(m, f, g);
      EatsOnce(lib, m, FieldText(f), AfterFields(m, [g]), AfterFields(m, [f]));
    }
  }

  lemma EatsOnce(lib: Library, m: Machine, s: string, a: Machine, b: Machine)
    requires Eats(lib, m, s, a, []) && a != b
    ensures !Eats(lib, m, s, b, [])
  {}

  lemma NotAfterFields(m: Machine, fields: seq<Header>, m': Machine)
    requires m'.head.sub != FieldEnded
    ensures m' != AfterFields(m, fields)
  {}

  lemma OtherValue(m: Machine, f: Header, g: Header)
    requires |f.val| != |g.val|
    ensures AfterFields(m, [f]) != AfterFields(m, [g])
  {
    var n := |m.req.headers|;
    assert Lowered([f])[0].val == ToLower(f.val) && Lowered([g])[0].val == ToLower(g.val);
    assert AfterFields(m, [f]).req.headers[n] == Lowered([f])[0];
    assert AfterFields(m, [g]).req.headers[n] == Lowered([g])[0];
  }

  /** An empty value without a blank swallows the next field: its line becomes the value. */
  lemma EmptyValueSwallows(lib: Library, m: Machine, key: string, next: Header, first: bool)
    requires AtField(m, first) && KeyOk(key, first) && '\r' !in next.key && '\r' !in next.val
    ensures Eats(lib, m, FieldText(Header(key, "", false)) + FieldText(next),
                 AfterFields(m, [Header(key, CRLF + next.key + Colon(next) + next.val, false)]), [])
  {
    hide Eats, AfterFields;
    var swallowed := Header(key, CRLF + next.key + Colon(next) + next.val, false);
    FieldEats(lib, m, swallowed, first);
    assert FieldText(Header(key, "", false)) + FieldText(next) == FieldText(swallowed);
  }

  lemma {:induction false} FieldsEat(lib: Library, m: Machine, fields: seq<Header>, first: bool)
    requires AtField(m, first) && fields != []
    requires forall i :: 0 <= i < |fields| ==> FieldOk(fields[i], first && i == 0)
    ensures Eats(lib, m, FieldsText(fields), AfterFields(m, fields), [])
    decreases |fields|
  {
    hide Eats;
    var m1 := AfterFields(m, [fields[0]]);
    FieldEats(lib, m, fields[0], first);
    AfterFieldsCons(m, fields);
    if |fields| == 1 {
      assert FieldsText(fields[1..]) == "";
      assert FieldsText(fields) == FieldText(fields[0]);
    } else {
      FieldsEat(lib, m1, fields[1..], false);
      EatsThen(lib, m, FieldText(fields[0]), m1, [], FieldsText(fields[1..]), AfterFields(m, fields), [],
             FieldText(fields[0]) + FieldsText(fields[1..]), []);
    }
  }

  lemma AfterFieldsCons(m: Machine, fields: seq<Header>)
    requires fields != []
    ensures AfterFields(m, fields) == AfterFields(AfterFields(m, [fields[0]]), fields[1..])
    ensures |fields| == 1 ==> AfterFields(m, fields) == AfterFields(m, [fields[0]])
  {
    var one := [Field(ToLower(fields[0].key), ToLower(fields[0].val))];
    assert Lowered([fields[0]]) == one + Lowered([]);
    assert m.req.headers + one + Lowered(fields[1..]) == m.req.headers + (one + Lowered(fields[1..]));
  }

  // ----- the blank line that ends the header block

  lemma BlankLineEats(lib: Library, m: Machine, m': Machine, events: seq<Event>)
    requires m.cur == StateHeader && m.head == Head(FieldEnded, "", "")
    requires var h := m.(head := Head(ExpectHeaderEnd, "", ""));
      AsRun(HttpRules(lib), Settle(Reaction(h, HeaderEnd(lib, m.req.headers)), "\n")) == Run(m', events, false)
    requires forall e :: e in events ==> !e.OnPartofBody?
    ensures Eats(lib, m, CRLF, m', events)
  {
    hide Eats;
    var h := m.(head := Head(ExpectHeaderEnd, "", ""));
    assert Eats(lib, m, "\r", h, []) by { EatsQuiet(lib, m, '\r', h); }
    assert Eats(lib, h, "\n", m', events) by { EatsLoud(lib, h, '\n', m', events); }
    EatsThen(lib, m, "\r", h, [], "\n", m', events,
             "\r" + "\n", events);
    assert "\r" + "\n" == CRLF;
  }

  /** The message without a body: the blank line completes the request. */
  lemma EmptyBodyEats(lib: Library, m: Machine)
    requires m.cur == StateHeader && m.head == Head(FieldEnded, "", "")
    requires HeaderEnd(lib, m.req.headers)
          == Ctx(false, true, 0, [EvHeaderReceived, EvRequestReceived], Some(Goto(StateRequestLine, 0)))
    requires m.line == Line(ExpectCrlf, "", "", "")
    ensures Eats(lib, m, CRLF, Restarted(m), [HeaderReceived, RequestReceived(m.req)])
  {
    EmitTwo(m.req, EvHeaderReceived, EvRequestReceived, "");
    assert "\n"[..0] == "";
    BlankLineEats(lib, m, Restarted(m), [HeaderReceived, RequestReceived(m.req)]);
  }

  /** Back at the start of a request; the states that are not current keep what they last stored. */
  function Restarted(m: Machine): Machine {
    m.(cur := StateRequestLine, line := Line(ExpectMethod, "", "", ""), head := Head(ExpectHeaderEnd, "", ""),
       req := CLEARED)
  }

  // ----- bodies

  lemma EatsBlock(lib: Library, m: Machine, data: string)
    requires Inv(m) && InBlock(m) && 0 < |data| <= Missing(m)
    ensures var o := TakeBlock(m, data);
      Eats(lib, m, data, AsRun(HttpRules(lib), o).m, Explode(HttpRules(lib), o.events))
  {
    BlockIsByteRun(lib, m, data);
  }

  lemma ExplodeBlock(lib: Library, data: string, rest: seq<Event>)
    requires forall e :: e in rest ==> !e.OnPartofBody?
    ensures Explode(HttpRules(lib), [OnPartofBody(data)] + rest) == Singles(data) + rest
  {
    assert ([OnPartofBody(data)] + rest)[1..] == rest;
    ExplodeIsIdentity(lib, rest);
  }

  lemma SizedBodyEats(lib: Library, m: Machine, data: string)
    requires m.cur == StateContentLength && m.fixed == Fixed(0, |data|) && data != ""
    requires m.line == Line(ExpectCrlf, "", "", "") && m.head == Head(ExpectHeaderEnd, "", "")
    ensures Eats(lib, m, data, Restarted(m).(fixed := Fixed(|data|, |data|)),
                 Singles(data) + [RequestReceived(m.req.(body := m.req.body + data))])
  {
    hide Eats, Explode, Singles;
    EatsBlock(lib, m, data);
    var received := RequestReceived(m.req.(body := m.req.body + data));
    assert TakeBlock(m, data).events == [OnPartofBody(data)] + [received];
    ExplodeBlock(lib, data, [received]);
  }

  /** At the start of a chunk. */
  predicate AtChunk(m: Machine) {
    m.cur == StateChunk && m.chunk == Chunk(ExpectLength, "", 0, 0)
  }

  function AfterPieces(m: Machine, pieces: seq<Piece>): Machine {
    m.(req := m.req.(body := m.req.body + PiecesData(pieces)))
  }

  lemma SizeTextEats(lib: Library, m: Machine, text: string)
    requires AtChunk(m) && '\r' !in text
    ensures Eats(lib, m, text, m.(chunk := Chunk(ExpectLength, text, 0, 0)), [])
  {
    var put := (t: string) => m.(chunk := Chunk(ExpectLength, t, 0, 0));
    EatsText(lib, put, "", text);
    assert "" + text == text;
  }

  lemma SizeEndEats(lib: Library, m: Machine, text: string, n: nat)
    requires m.cur == StateChunk && m.chunk == Chunk(ExpectLength, text, 0, 0) && SizeIs(text, 16, n)
    ensures Eats(lib, m, CRLF, m.(chunk := Chunk(if n != 0 then ExpectChunkData else FinishWaitCr, text, n, 0)), [])
  {
    hide Eats;
    var cr := m.(chunk := Chunk(GetInitialCr, text, 0, 0));
    var m' := m.(chunk := Chunk(if n != 0 then ExpectChunkData else FinishWaitCr, text, n, 0));
    assert Eats(lib, m, "\r", cr, []) by { EatsQuiet(lib, m, '\r', cr); }
    assert Eats(lib, cr, "\n", m', []) by { EatsQuiet(lib, cr, '\n', m'); }
    EatsThen(lib, m, "\r", cr, [], "\n", m', [],
             "\r" + "\n", []);
    assert "\r" + "\n" == CRLF;
  }

  lemma SizeLineEats(lib: Library, m: Machine, text: string, n: nat)
    requires AtChunk(m) && SizeIs(text, 16, n)
    ensures Eats(lib, m, text + CRLF,
                 m.(chunk := Chunk(if n != 0 then ExpectChunkData else FinishWaitCr, text, n, 0)), [])
  {
    hide Eats;
    var m1 := m.(chunk := Chunk(ExpectLength, text, 0, 0));
    var m' := m.(chunk := Chunk(if n != 0 then ExpectChunkData else FinishWaitCr, text, n, 0));
    SizeTextEats(lib, m, text);
    SizeEndEats(lib, m1, text, n);
    EatsThen(lib, m, text, m1, [], CRLF, m', [],
             text + CRLF, []);
  }

  lemma PieceEndEats(lib: Library, m: Machine)
    requires m.cur == StateChunk && m.chunk.sub == ExpectChunkCr
    ensures Eats(lib, m, CRLF, m.(chunk := Chunk(ExpectLength, "", 0, 0)), [])
  {
    hide Eats;
    var lf := m.(chunk := m.chunk.(sub := ExpectChunkLf));
    var m' := m.(chunk := Chunk(ExpectLength, "", 0, 0));
    assert Eats(lib, m, "\r", lf, []) by { EatsQuiet(lib, m, '\r', lf); }
    assert Eats(lib, lf, "\n", m', []) by { EatsLoud(lib, lf, '\n', m', []); }
    EatsThen(lib, m, "\r", lf, [], "\n", m', [],
             "\r" + "\n", []);
    assert "\r" + "\n" == CRLF;
  }

  lemma PieceDataEats(lib: Library, m: Machine, size: string, data: string)
    requires m.cur == StateChunk && m.chunk == Chunk(ExpectChunkData, size, |data|, 0) && data != ""
    ensures Eats(lib, m, data, m.(chunk := Chunk(ExpectChunkCr, size, |data|, |data|),
                                  req := m.req.(body := m.req.body + data)), Singles(data))
  {
    hide Eats, Explode, Singles, HttpRules;
    EatsBlock(lib, m, data);
    assert TakeBlock(m, data).events == [OnPartofBody(data)] + [];
    ExplodeBlock(lib, data, []);
    assert Singles(data) + [] == Singles(data);
  }

  lemma PieceEats(lib: Library, m: Machine, piece: Piece)
    requires AtChunk(m) && PieceOk(piece)
    ensures Eats(lib, m, PieceText(piece), m.(req := m.req.(body := m.req.body + piece.data)), Singles(piece.data))
  {
    hide Eats;
    var Piece(size, data) := piece;
    var m1 := m.(chunk := Chunk(ExpectChunkData, size, |data|, 0));
    var m2 := m.(chunk := Chunk(ExpectChunkCr, size, |data|, |data|), req := m.req.(body := m.req.body + data));
    var m3 := m.(req := m.req.(body := m.req.body + data));
    SizeLineEats(lib, m, size, |data|);
    PieceDataEats(lib, m1, size, data);
    EatsThen(lib, m, size + CRLF, m1, [], data, m2, Singles(data),
             size + CRLF + data, Singles(data));
    PieceEndEats(lib, m2);
    EatsThen(lib, m, size + CRLF + data, m2, Singles(data), CRLF, m3, [],
             size + CRLF + data + CRLF, Singles(data));
  }

  lemma SinglesConcat(a: string, b: string)
    ensures Singles(a + b) == Singles(a) + Singles(b)
  {
    if a == "" {
      assert a + b == b;
    } else {
      assert (a + b)[1..] == a[1..] + b;
      SinglesConcat(a[1..], b);
    }
  }

  lemma {:induction false} PiecesEat(lib: Library, m: Machine, pieces: seq<Piece>)
    requires AtChunk(m) && forall i :: 0 <= i < |pieces| ==> PieceOk(pieces[i])
    ensures Eats(lib, m, PiecesText(pieces), AfterPieces(m, pieces), Singles(PiecesData(pieces)))
    decreases |pieces|
  {
    hide Eats, Singles, PieceText, PiecesText, AfterPieces, PiecesData;
    if pieces == [] {
      NoPieces(m);
      EatsNothing(lib, m);
    } else {
      var m1 := m.(req := m.req.(body := m.req.body + pieces[0].data));
      PieceEats(lib, m, pieces[0]);
      PiecesEat(lib, m1, pieces[1..]);
      PiecesCons(m, pieces);
      EatsThen(lib, m, PieceText(pieces[0]), m1, Singles(pieces[0].data),
               PiecesText(pieces[1..]), AfterPieces(m, pieces), Singles(PiecesData(pieces[1..])),
               PiecesText(pieces), Singles(PiecesData(pieces)));
    }
  }

  lemma NoPieces(m: Machine)
    ensures PiecesText([]) == "" && AfterPieces(m, []) == m && Singles(PiecesData([])) == []
  {
    assert m.req.body + "" == m.req.body;
  }

  lemma PiecesCons(m: Machine, pieces: seq<Piece>)
    requires pieces != []
    ensures PiecesText(pieces) == PieceText(pieces[0]) + PiecesText(pieces[1..])
    ensures Singles(PiecesData(pieces)) == Singles(pieces[0].data) + Singles(PiecesData(pieces[1..]))
    ensures AfterPieces(m, pieces) == AfterPieces(m.(req := m.req.(body := m.req.body + pieces[0].data)), pieces[1..])
  {
    hide Singles, PieceText;
    SinglesConcat(pieces[0].data, PiecesData(pieces[1..]));
    assert m.req.body + pieces[0].data + PiecesData(pieces[1..]) == m.req.body + PiecesData(pieces);
  }

  lemma LastPieceEats(lib: Library, m: Machine, lastSize: string)
    requires AtChunk(m) && SizeIs(lastSize, 16, 0)
    requires m.line == Line(ExpectCrlf, "", "", "") && m.head == Head(ExpectHeaderEnd, "", "")
    ensures Eats(lib, m, lastSize + CRLF + CRLF, Restarted(m).(chunk := Chunk(FinishWaitLf, lastSize, 0, 0)),
                 [RequestReceived(m.req)])
  {
    hide Eats;
    var m1 := m.(chunk := Chunk(FinishWaitCr, lastSize, 0, 0));
    SizeLineEats(lib, m, lastSize, 0);
    var m2 := m.(chunk := Chunk(FinishWaitLf, lastSize, 0, 0));
    assert Eats(lib, m1, "\r", m2, []) by { EatsQuiet(lib, m1, '\r', m2); }
    EatsThen(lib, m, lastSize + CRLF, m1, [], "\r", m2, [],
             lastSize + CRLF + "\r", []);
    var m3 := Restarted(m).(chunk := Chunk(FinishWaitLf, lastSize, 0, 0));
    assert Eats(lib, m2, "\n", m3, [RequestReceived(m.req)]) by {
      EmitTwo(m2.req, EvRequestReceived, EvRequestReceived, "\n"[..0]);
      EatsLoud(lib, m2, '\n', m3, [RequestReceived(m.req)]);
    }
    EatsThen(lib, m, lastSize + CRLF + "\r", m2, [], "\n", m3, [RequestReceived(m.req)],
             lastSize + CRLF + "\r" + "\n", [RequestReceived(m.req)]);
    assert lastSize + CRLF + "\r" + "\n" == lastSize + CRLF + CRLF;
  }

  // ----- whole messages

  /** The events of a message when its body arrives byte by byte. */
  function ByteEvents(msg: Message): seq<Event> {
    Started(msg) + [HeaderReceived] + Singles(BodyData(msg.body)) + [RequestReceived(Parsed(msg))]
  }

  /** From the blank line to the end of the body. */
  lemma TailEats(lib: Library, m: Machine, msg: Message) returns (m': Machine)
    requires WellFormed(msg) && m.cur == StateHeader && m.head == Head(FieldEnded, "", "")
    requires m.line == Line(ExpectCrlf, "", "", "") && m.req == Parsed(msg).(body := "")
    ensures Idle(m') && Inv(m')
    ensures Eats(lib, m, CRLF + BodyText(msg.body), m',
                 [HeaderReceived] + (Singles(BodyData(msg.body)) + [RequestReceived(Parsed(msg))]))
  {
    hide Eats;
    if msg.body.Chunked? {
      var m1 := m.(head := Head(ExpectHeaderEnd, "", ""), cur := StateChunk, chunk := Chunk(ExpectLength, "", 0, 0));
      HeadersAnnounce(lib, msg);
      assert Eats(lib, m, CRLF, m1, [HeaderReceived]) by {
        EmitTwo(m.req, EvHeaderReceived, EvHeaderReceived, "\n"[..0]);
        BlankLineEats(lib, m, m1, [HeaderReceived]);
      }
      m' := ChunkedTailEats(lib, m1, msg);
      EatsThen(lib, m, CRLF, m1, [HeaderReceived], BodyText(msg.body), m',
               Singles(BodyData(msg.body)) + [RequestReceived(Parsed(msg))],
               CRLF + BodyText(msg.body),
               [HeaderReceived] + (Singles(BodyData(msg.body)) + [RequestReceived(Parsed(msg))]));
    } else {
      m' := PlainTailEats(lib, m, msg);
    }
  }

  /** What the header handler decides at the end of the header block of a well-formed message. */
  lemma HeadersAnnounce(lib: Library, msg: Message)
    requires WellFormed(msg)
    ensures HeaderEnd(lib, Lowered(msg.fields)) ==
      match msg.body
      case Chunked(_, _) => Ctx(false, true, 0, [EvHeaderReceived], Some(Goto(StateChunk, 0)))
      case _ =>
        if BodyData(msg.body) == ""
        then Ctx(false, true, 0, [EvHeaderReceived, EvRequestReceived], Some(Goto(StateRequestLine, 0)))
        else Ctx(false, true, 0, [EvHeaderReceived], Some(Goto(StateContentLength, |BodyData(msg.body)|)))
  {}

  lemma PlainTailEats(lib: Library, m: Machine, msg: Message) returns (m': Machine)
    requires WellFormed(msg) && !msg.body.Chunked? && m.cur == StateHeader && m.head == Head(FieldEnded, "", "")
    requires m.line == Line(ExpectCrlf, "", "", "") && m.req == Parsed(msg).(body := "")
    ensures Idle(m') && Inv(m')
    ensures Eats(lib, m, CRLF + BodyText(msg.body), m',
                 [HeaderReceived] + (Singles(BodyData(msg.body)) + [RequestReceived(Parsed(msg))]))
  {
    hide Eats;
    var data := BodyData(msg.body);
    assert BodyText(msg.body) == data;
    HeadersAnnounce(lib, msg);
    if data == "" {
      m' := Restarted(m);
      assert Eats(lib, m, CRLF, m', [HeaderReceived, RequestReceived(m.req)]) by { EmptyBodyEats(lib, m); }
      assert CRLF + data == CRLF;
      assert [HeaderReceived] + (Singles(data) + [RequestReceived(Parsed(msg))])
          == [HeaderReceived, RequestReceived(m.req)];
    } else {
      var m1 := m.(head := Head(ExpectHeaderEnd, "", ""), cur := StateContentLength, fixed := Fixed(0, |data|));
      assert Eats(lib, m, CRLF, m1, [HeaderReceived]) by {
        EmitTwo(m.req, EvHeaderReceived, EvHeaderReceived, "\n"[..0]);
        BlankLineEats(lib, m, m1, [HeaderReceived]);
      }
      m' := Restarted(m1).(fixed := Fixed(|data|, |data|));
      assert m1.req.body + data == data;
      assert Eats(lib, m1, data, m', Singles(data) + [RequestReceived(Parsed(msg))]) by {
        SizedBodyEats(lib, m1, data);
      }
      EatsThen(lib, m, CRLF, m1, [HeaderReceived], data, m', Singles(data) + [RequestReceived(Parsed(msg))],
             CRLF + data, [HeaderReceived] + (Singles(data) + [RequestReceived(Parsed(msg))]));
    }
  }

  lemma ChunkedTailEats(lib: Library, m: Machine, msg: Message) returns (m': Machine)
    requires WellFormed(msg) && msg.body.Chunked? && AtChunk(m) && m.head == Head(ExpectHeaderEnd, "", "")
    requires m.line == Line(ExpectCrlf, "", "", "") && m.req == Parsed(msg).(body := "")
    ensures Idle(m') && Inv(m')
    ensures Eats(lib, m, BodyText(msg.body), m', Singles(BodyData(msg.body)) + [RequestReceived(Parsed(msg))])
  {
    hide Eats;
    var Chunked(pieces, lastSize) := msg.body;
    var m1 := AfterPieces(m, pieces);
    PiecesEat(lib, m, pieces);
    LastPieceEats(lib, m1, lastSize);
    assert m.req.body + PiecesData(pieces) == PiecesData(pieces);
    m' := Restarted(m1).(chunk := Chunk(FinishWaitLf, lastSize, 0, 0));
    EatsThen(lib, m, PiecesText(pieces), m1, Singles(PiecesData(pieces)), lastSize + CRLF + CRLF, m',
             [RequestReceived(Parsed(msg))], PiecesText(pieces) + (lastSize + CRLF + CRLF),
             Singles(PiecesData(pieces)) + [RequestReceived(Parsed(msg))]);
  }

  lemma MessageEats(lib: Library, m: Machine, msg: Message) returns (m': Machine)
    requires Inv(m) && Idle(m) && WellFormed(msg) && msg.fields != []
    ensures Idle(m') && Inv(m')
    ensures Eats(lib, m, Print(msg), m', ByteEvents(msg))
  {
    hide Eats, FieldsText, LineText, BodyText, FramingOk, Singles, Started;
    var start := Started(msg);
    var m1 := AfterLine(m, msg);
    var m2 := AfterFields(m1, msg.fields);
    LineEats(lib, m, msg);
    FieldsEat(lib, m1, msg.fields, true);
    assert [] + Lowered(msg.fields) == Lowered(msg.fields);
    m' := TailEats(lib, m2, msg);
    EatsThen(lib, m, LineText(msg), m1, start, FieldsText(msg.fields), m2, [],
             LineText(msg) + FieldsText(msg.fields), start);
    var events := [HeaderReceived] + (Singles(BodyData(msg.body)) + [RequestReceived(Parsed(msg))]);
    EatsThen(lib, m, LineText(msg) + FieldsText(msg.fields), m2, start, CRLF + BodyText(msg.body), m', events,
             LineText(msg) + FieldsText(msg.fields) + (CRLF + BodyText(msg.body)), start + events);
    assert LineText(msg) + FieldsText(msg.fields) + (CRLF + BodyText(msg.body)) == Print(msg);
    assert start + events == ByteEvents(msg);
  }

  function AllByteEvents(msgs: seq<Message>): seq<Event> {
    if msgs == [] then [] else ByteEvents(msgs[0]) + AllByteEvents(msgs[1..])
  }

  lemma {:induction false} MessagesEat(lib: Library, m: Machine, msgs: seq<Message>) returns (m': Machine)
    requires Inv(m) && Idle(m) && forall i :: 0 <= i < |msgs| ==> WellFormed(msgs[i]) && msgs[i].fields != []
    ensures Idle(m') && Inv(m')
    ensures Eats(lib, m, PrintAll(msgs), m', AllByteEvents(msgs))
    decreases |msgs|
  {
    EatsNothing(lib, m);
    hide Eats;
    if msgs == [] {
      m' := m;
    } else {
      var m1 := MessageEats(lib, m, msgs[0]);
      m' := MessagesEat(lib, m1, msgs[1..]);
      EatsThen(lib, m, Print(msgs[0]), m1, ByteEvents(msgs[0]), PrintAll(msgs[1..]), m', AllByteEvents(msgs[1..]),
             Print(msgs[0]) + PrintAll(msgs[1..]), ByteEvents(msgs[0]) + AllByteEvents(msgs[1..]));
    }
  }

  // ----- main results

  lemma MergeOne(msg: Message, rest: seq<Event>)
    requires Merge(rest) == rest
    ensures Merge(ByteEvents(msg) + rest) == EventsOf(msg) + rest
  {
    hide Merge, Singles, Parsed;
    var start := Started(msg) + [HeaderReceived];
    var data := BodyData(msg.body);
    var body := if data == "" then [] else [OnPartofBody(data)];
    var tail := [RequestReceived(Parsed(msg))] + rest;
    MergeBody(data, body, tail);
    MergeAppend(start, Singles(data) + tail, body + tail);
    assert start + (Singles(data) + tail) == ByteEvents(msg) + rest;
    assert start + (body + tail) == EventsOf(msg) + rest;
    MergePlain(EventsOf(msg), rest);
  }

  lemma MergeBody(data: string, body: seq<Event>, tail: seq<Event>)
    requires body == if data == "" then [] else [OnPartofBody(data)]
    ensures Merge(Singles(data) + tail) == Merge(body + tail)
  {
    MergeOfSingles(data, tail);
    if data == "" {
      assert body + tail == tail;
    } else {
      assert (body + tail)[1..] == tail;
    }
  }

  lemma {:induction false} MergeAll(msgs: seq<Message>)
    ensures Merge(AllByteEvents(msgs)) == AllEvents(msgs) == Merge(AllEvents(msgs))
  {
    if msgs != [] {
      MergeAll(msgs[1..]);
      var rest := AllEvents(msgs[1..]);
      MergeOne(msgs[0], rest);
      MergeAppend(ByteEvents(msgs[0]), AllByteEvents(msgs[1..]), rest);
      MergePlain(EventsOf(msgs[0]), rest);
    }
  }

  /** Merging looks at what follows only through its merged form. */
  lemma {:induction false} MergeAppend(front: seq<Event>, a: seq<Event>, b: seq<Event>)
    requires Merge(a) == Merge(b)
    ensures Merge(front + a) == Merge(front + b)
  {
    if front == [] {
      assert front + a == a && front + b == b;
    } else {
      assert (front + a)[1..] == front[1..] + a && (front + b)[1..] == front[1..] + b;
      MergeAppend(front[1..], a, b);
    }
  }

  predicate AlreadyMerged(events: seq<Event>) {
    forall i :: 0 <= i < |events| && events[i].OnPartofBody? ==>
      events[i].data != "" && i + 1 < |events| && !events[i + 1].OnPartofBody?
  }

  lemma {:induction false} MergePlain(front: seq<Event>, rest: seq<Event>)
    requires AlreadyMerged(front) && Merge(rest) == rest
    ensures Merge(front + rest) == front + rest
  {
    if front == [] {
      assert front + rest == rest;
    } else {
      assert (front + rest)[1..] == front[1..] + rest;
      MergePlain(front[1..], rest);
    }
  }

  /** Round trip with pipelining: any list of well-formed requests, each with at least one header field,
      printed one after the other and delivered in any pieces, parses back to exactly that list, and
      leaves the parser ready for the byte that follows. */
  lemma PipelinedRoundTrip(lib: Library, m: Machine, msgs: seq<Message>, pieces: seq<string>)
    requires Inv(m) && Idle(m)
    requires forall i :: 0 <= i < |msgs| ==> WellFormed(msgs[i]) && msgs[i].fields != []
    requires Concat(pieces) == PrintAll(msgs)
    ensures Lawful(HttpRules(lib))
    ensures var r := Feed(HttpRules(lib), m, pieces);
      !r.stopped && Idle(r.m) && Merge(r.events) == AllEvents(msgs)
  {
    HttpIsLawful(lib);
    var p := HttpRules(lib);
    var m' := MessagesEat(lib, m, msgs);
    FeedIsByteRun(p, m, pieces);
    var r := Feed(p, m, pieces);
    MergeExplode(lib, r.events);
    MergeAll(msgs);
  }

  /** A request without header fields: its blank line is stored as the start of a field name. */
  lemma HeaderlessEats(lib: Library, m: Machine, msg: Message)
    requires Inv(m) && Idle(m) && WellFormed(msg) && msg.fields == []
    ensures Eats(lib, m, Print(msg), AfterLine(m, msg).(head := Head(ExpectFieldKey, CRLF, "")), Started(msg))
  {
    hide Eats;
    var m1 := AfterLine(m, msg);
    var cr := m1.(head := Head(ExpectFieldKey, "\r", ""));
    var m2 := m1.(head := Head(ExpectFieldKey, CRLF, ""));
    LineEats(lib, m, msg);
    assert Eats(lib, m1, "\r", cr, []) by { assert "" + "\r" == "\r"; EatsQuiet(lib, m1, '\r', cr); }
    assert Eats(lib, cr, "\n", m2, []) by { assert "\r" + "\n" == CRLF; EatsQuiet(lib, cr, '\n', m2); }
    EatsThen(lib, m, LineText(msg), m1, Started(msg), "\r", cr, [],
             LineText(msg) + "\r", Started(msg));
    EatsThen(lib, m, LineText(msg) + "\r", cr, Started(msg), "\n", m2, [],
             LineText(msg) + "\r" + "\n", Started(msg));
    assert LineText(msg) + "\r" + "\n" == Print(msg);
  }

  /** Exactly when a well-formed request parses back: if and only if it has a header field. */
  lemma RoundTripExactly(lib: Library, m: Machine, msg: Message, pieces: seq<string>)
    requires Inv(m) && Idle(m) && WellFormed(msg) && Concat(pieces) == Print(msg)
    ensures Lawful(HttpRules(lib))
    ensures var r := Feed(HttpRules(lib), m, pieces);
      (Idle(r.m) && Merge(r.events) == EventsOf(msg)) <==> msg.fields != []
  {
    HttpIsLawful(lib);
    var p := HttpRules(lib);
    if msg.fields != [] {
      assert PrintAll([msg]) == Print(msg) + PrintAll([]);
      assert AllEvents([msg]) == EventsOf(msg) + AllEvents([]);
      PipelinedRoundTrip(lib, m, [msg], pieces);
    } else {
      HeaderlessStuck(lib, m, msg, pieces);
    }
  }

  /** A request without header fields never completes: the parser still waits for a field name. */
  lemma HeaderlessStuck(lib: Library, m: Machine, msg: Message, pieces: seq<string>)
    requires Inv(m) && Idle(m) && WellFormed(msg) && msg.fields == [] && Concat(pieces) == Print(msg)
    ensures Lawful(HttpRules(lib))
    ensures var r := Feed(HttpRules(lib), m, pieces);
      r.m.cur == StateHeader && r.m.head.key == CRLF && Merge(r.events) == Started(msg)
  {
    HttpIsLawful(lib);
    HeaderlessEats(lib, m, msg);
    FeedIsByteRun(HttpRules(lib), m, pieces);
    MergeExplode(lib, Feed(HttpRules(lib), m, pieces).events);
    assert Started(msg)[..0] == [] && (msg.verb != "" ==> Started(msg)[1..] == []);
  }

  function BareGet(): Message {
    Message("GET", "/", "HTTP/1.1", [], NoBody)
  }

  /** The bare GET that RFC 2616 allows is such a request. */
  lemma HeaderlessExample(lib: Library, m: Machine)
    requires Inv(m) && Idle(m)
    ensures WellFormed(BareGet()) && Lawful(HttpRules(lib))
    ensures !Idle(Feed(HttpRules(lib), m, [Print(BareGet())]).m)
  {
    var msg := BareGet();
    var pieces := [Print(msg)];
    assert Concat(pieces) == Print(msg);
    HeaderlessStuck(lib, m, msg, pieces);
  }
}
