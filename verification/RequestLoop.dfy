/** The loop of `extract_and_handle_request` as a function of the bytes and of the answers of the response side. */
module RequestLoop {
  import opened HttpText
  import Engine = HfsmEngine
  import opened HttpMachine
  import opened HttpChunking

  /** How the response side answers one call of `try_output_response`. */
  datatype Reply = MoveOn | Blocked | Failed

  /** Where the loop stands when it ends: parser and events, the bytes not yet parsed, whether a complete request
      waits for its response, whether the loop failed, and whether it ran on behind the last byte. */
  datatype Served = Served(m: Machine, events: seq<Event>, rest: string, waiting: bool, err: bool, overran: bool)

  /** A call of `parse`. */
  ghost function Call(lib: Library, m: Machine, input: string): (o: Engine.Outcome<Machine, Event>)
    requires Inv(m)
    ensures Engine.Lawful(HttpRules(lib)) && o == Engine.Parse(HttpRules(lib), m, input)
    ensures o.used <= |input| && Inv(o.m) && (input != "" ==> o.used > 0)
    ensures !o.complete && !o.err ==> o.used == |input|
  {
    HttpIsLawful(lib);
    Engine.Parse(HttpRules(lib), m, input)
  }

  /** What is done with `input`, when `replies(i)` answers the next call of `parse`; `gap` says whether the bytes
      are followed by an empty slice, which stops no call of `parse` that has not come to an end of its own. */
  ghost function Serve(lib: Library, m: Machine, input: string, replies: nat -> Reply, i: nat, gap: bool): Served
    requires Inv(m)
    decreases |input|
  {
    if input == "" then Served(m, [], "", false, false, false)
    else
      var o := Call(lib, m, input);
      var rest := input[o.used..];
      if gap && !o.complete && !o.err then Served(m, [], input, false, false, true)
      else if replies(i) == Failed then Served(o.m, o.events, rest, o.complete, true, false)
      else if o.complete && replies(i) == Blocked then Served(o.m, o.events, rest, true, false, false)
      else
        var s := Serve(lib, if o.complete then Cleared(o.m) else o.m, rest, replies, i + 1, gap);
        s.(events := o.events + s.events)
  }

  /** The loop has got to `s`, from which on `s.rest` is still to be served unless it has ended. */
  ghost predicate Serving(lib: Library, m0: Machine, input0: string, replies: nat -> Reply, i: nat, gap: bool,
      s: Served)
    requires Inv(m0)
  {
    && Inv(s.m)
    && Serve(lib, m0, input0, replies, 0, gap) ==
       if s.waiting || s.err || s.overran then s
       else var rest := Serve(lib, s.m, s.rest, replies, i, gap); rest.(events := s.events + rest.events)
  }

  lemma ServingStart(lib: Library, m: Machine, input: string, replies: nat -> Reply, gap: bool)
    requires Inv(m)
    ensures Serving(lib, m, input, replies, 0, gap, Served(m, [], input, false, false, false))
  {
    var s := Serve(lib, m, input, replies, 0, gap);
    assert [] + s.events == s.events;
  }

  /** One turn of the loop. */
  ghost function Turn(lib: Library, m: Machine, input: string, reply: Reply, gap: bool): Served
    requires Inv(m)
  {
    var o := Call(lib, m, input);
    if gap && !o.complete && !o.err then Served(m, [], input, false, false, true)
    else
      var moved := o.complete && reply == MoveOn;
      Served(if moved then Cleared(o.m) else o.m, o.events, input[o.used..], o.complete && !moved, reply == Failed,
             false)
  }

  lemma ServeTurn(lib: Library, m: Machine, input: string, replies: nat -> Reply, i: nat, gap: bool)
    requires Inv(m) && input != ""
    ensures var s := Turn(lib, m, input, replies(i), gap);
      && Inv(s.m)
      && Serve(lib, m, input, replies, i, gap) ==
         if s.waiting || s.err || s.overran then s
         else var rest := Serve(lib, s.m, s.rest, replies, i + 1, gap); rest.(events := s.events + rest.events)
  {
    hide Call, Inv;
    ClearedKeepsInv(Call(lib, m, input).m);
  }

  lemma ServingStep(lib: Library, m0: Machine, input0: string, replies: nat -> Reply, i: nat, gap: bool, s: Served)
    requires Inv(m0) && Serving(lib, m0, input0, replies, i, gap, s)
    requires !s.waiting && !s.err && !s.overran && s.rest != ""
    ensures var turn := Turn(lib, s.m, s.rest, replies(i), gap);
      Serving(lib, m0, input0, replies, i + 1, gap, turn.(events := s.events + turn.events))
  {
    hide Call, Inv, Serve, Turn;
    ServeTurn(lib, s.m, s.rest, replies, i, gap);
    var turn := Turn(lib, s.m, s.rest, replies(i), gap);
    if !turn.waiting && !turn.err && !turn.overran {
      var tail := Serve(lib, turn.m, turn.rest, replies, i + 1, gap);
      assert s.events + (turn.events + tail.events) == s.events + turn.events + tail.events;
    }
  }

  lemma ServingEnd(lib: Library, m0: Machine, input0: string, replies: nat -> Reply, i: nat, gap: bool, s: Served)
    requires Inv(m0) && Serving(lib, m0, input0, replies, i, gap, s)
    requires s.waiting || s.err || s.overran || s.rest == ""
    ensures Serve(lib, m0, input0, replies, 0, gap) == s
  {
    assert s.events + [] == s.events;
  }

  /** How the loop can end: with nothing left, unless something stops it; with less than before; running on only
      before an empty slice; and not at all held up while the response side moves on. */
  lemma {:induction false} ServeEnds(lib: Library, m: Machine, input: string, replies: nat -> Reply, i: nat, gap: bool)
    requires Inv(m)
    ensures var s := Serve(lib, m, input, replies, i, gap);
      && (!s.overran && !s.err && !s.waiting ==> s.rest == "")
      && (!s.overran && input != "" ==> |s.rest| < |input|)
      && (s.overran ==> gap && input != "")
      && ((forall j :: replies(j) == MoveOn) ==> !s.err && !s.waiting)
    decreases |input|
  {
    hide Call, Inv;
    if input != "" {
      var o := Call(lib, m, input);
      ClearedKeepsInv(o.m);
      ServeEnds(lib, if o.complete then Cleared(o.m) else o.m, input[o.used..], replies, i + 1, gap);
    }
  }

  lemma ClearedKeepsInv(m: Machine)
    ensures Inv(Cleared(m)) <==> Inv(m)
  {}
}
