/** Where requests end: the parser is at the start of a request exactly when the last byte completed one. */
module HttpBoundaries {
  import opened HttpText
  import Engine = HfsmEngine
  import opened HttpMachine
  import opened HttpChunking

  /** No byte of the current request has been read. */
  predicate AtStart(m: Machine) {
    m.cur == StateRequestLine && m.line.sub == ExpectMethod && m.line.verb == ""
  }

  /** A method is stored only while the request line is read. */
  predicate LineClear(m: Machine) {
    m.cur != StateRequestLine ==> m.line.verb == ""
  }

  lemma LineBoundary(m: Machine, c: char)
    ensures var r := HandleRequestLine(m, c);
      && r.m.cur == m.cur && r.ctx.step == 0
      && match r.ctx.next
         case None => m.cur == StateRequestLine ==> !AtStart(r.m) || r.ctx.err
         case Some(g) => g.state == StateHeader
  {
    hide ToUpper, ToHttpMethod, ToHttpVersion;
  }

  /** After one handler call that does not fail, the parser is at a start only by a change to the request line. */
  lemma HandleBoundary(lib: Library, m: Machine, c: char, nLeft: nat)
    requires Inv(m) && LineClear(m) && nLeft > 0
    ensures var r := Handle(lib, m, c, nLeft);
      && r.m.cur == m.cur && LineClear(r.m)
      && (r.ctx.next.None? ==> !AtStart(r.m) || r.ctx.err)
  {
    hide HandleRequestLine, HexToSize, FieldVal, StrToSize, ToUpper, ToLower, ToHttpMethod, ToHttpVersion;
    if m.cur == StateRequestLine {
      LineBoundary(m, c);
    }
  }

  lemma SettleBoundary(r: Reaction, input: string)
    requires r.ctx.step <= |input| && LineClear(r.m)
    requires r.ctx.next.None? ==> !AtStart(r.m) || r.ctx.err
    ensures var o := Settle(r, input);
      && LineClear(o.m)
      && (o.complete ==> AtStart(o.m))
      && (!o.complete && !o.err ==> !AtStart(o.m))
  {
    hide Emit;
  }

  lemma {:induction false} RoundBoundary(lib: Library, m: Machine, input: string)
    requires Inv(m) && LineClear(m) && input != []
    ensures var o := Round(lib, m, input);
      && LineClear(o.m)
      && (o.complete ==> AtStart(o.m))
      && (!o.complete && !o.err ==> !AtStart(o.m))
    decreases |input|
  {
    hide Handle, Settle, AtStart, LineClear, Inv;
    HandleKeepsBounds(lib, m, input[0], |input|);
    HandleBoundary(lib, m, input[0], |input|);
    var r := Handle(lib, m, input[0], |input|);
    if r.ctx.interrupt {
      SettleBoundary(r, input);
    } else if |input| > 1 {
      RoundBoundary(lib, r.m, input[1..]);
    }
  }

  /** A call of `parse` that reports no error ends at the start of a request if and only if it has completed
      one. */
  lemma {:induction false} ParseBoundary(lib: Library, m: Machine, input: string)
    requires Inv(m) && LineClear(m) && input != [] && Engine.Lawful(HttpRules(lib))
    ensures var o := Engine.Parse(HttpRules(lib), m, input);
      LineClear(o.m) && (o.complete ==> AtStart(o.m)) && (!o.err ==> (o.complete <==> AtStart(o.m)))
    decreases |input|
  {
    hide Round, AtStart, LineClear, Engine.Same, Engine.ByteRun;
    StepIsRound(lib, m, input);
    RoundProgress(lib, m, input);
    RoundBoundary(lib, m, input);
    var r := Round(lib, m, input);
    if !r.complete && !r.err && r.used < |input| {
      ParseBoundary(lib, r.m, input[r.used..]);
    }
  }
}
