/** Server.cpp: what happens to a connection that becomes readable. */
module Server {
  import opened Sequences
  import opened ByteParts
  import opened ChainBuffer
  import opened Connection
  import opened HttpMachine
  import opened HttpBoundaries
  import opened HttpParserObjects
  import opened RequestLoop
  import opened Http1Processor

  /** `on_stream_readable` for an HTTP connection: only if the last read says that the kernel has no more for
      now does the processor see the bytes; otherwise the connection is closed and they are lost. If parsing
      runs on into an empty slice behind the last byte, the source leaves the bytes it has received, and no
      more is claimed of the objects. That happens only if the delivery filled the last slice exactly, and only
      inside a request; and when neither an error nor a response stops the loop, it does happen then. */
  method OnStreamReadable(p: Processor, wire: string, pieces: nat -> nat, ending: ReadRc, replies: nat -> Reply)
    returns (ok: bool, overran: bool)
    requires p.Valid() && p.conn.isOpen && ending != ReadOk
    modifies p.Objects(), p.conn`isOpen, p.conn.inputBuf, p.conn.inputBuf.TailRaw()
    ensures p.Received() == old(p.Received()) + wire && old(p.conn.inputBuf.Room()) >= 0
    ensures ending != ReadBuffEmpty ==>
              && !ok && !overran && p.Unread() == old(p.Unread()) + wire
              && p.trace == old(p.trace) && p.broken == old(p.broken)
              && p.gotCompleteReq == old(p.gotCompleteReq)
              && p.parser.Value(p.request) == old(p.parser.Value(p.request))
    ensures old(p.Unread()) + wire != "" && !old(p.gotCompleteReq) ==>
              ((overran || |p.Unread()| < |old(p.Unread()) + wire|) <==> ending == ReadBuffEmpty)
    ensures !overran ==> p.Valid() && old(p.trace) <= p.trace && p.conn.isOpen == ok
    ensures !overran && ok && !p.gotCompleteReq ==> p.Unread() == ""
    ensures overran ==> GapAfter(old(p.conn.inputBuf.parts), old(p.conn.inputBuf.Room()), |wire|)
    ensures overran && !p.broken ==> p.EndsInside()
    ensures !overran && ok && !p.gotCompleteReq && !p.broken && old(p.Unread()) + wire != ""
            && GapAfter(old(p.conn.inputBuf.parts), old(p.conn.inputBuf.Room()), |wire|) ==>
              AtStart(p.Reference(p.Received()).m)
    ensures p.broken ==> p.Reference(p.Received()).stopped
    ensures Inv(old(p.parser.Value(p.request)))
    ensures ending == ReadBuffEmpty && !old(p.gotCompleteReq) ==>
              p.ServedAs(Serve(p.lib, old(p.parser.Value(p.request)), old(p.Unread()) + wire, replies, 0,
                               GapAfter(old(p.conn.inputBuf.parts), old(p.conn.inputBuf.Room()), |wire|)),
                         old(p.trace), !ok, overran)
    ensures ending == ReadBuffEmpty && old(p.gotCompleteReq) ==>
              ok && !overran && p.gotCompleteReq && p.trace == old(p.trace) && p.Unread() == old(p.Unread()) + wire
    ensures ending == ReadBuffEmpty && (forall i :: replies(i) == MoveOn) ==>
              ok && (!old(p.gotCompleteReq) && !overran ==> !p.gotCompleteReq)
  {
    hide Processor.Valid, Processor.Reference, Processor.EndsInside, HttpParser.Value;
    hide Concat, NonEmpty, GapAfter, AtStart, Inv, Serve;
    p.ValidFacts();
    var code := p.Receive(wire, pieces, ending);
    p.ValidFacts();
    ok, overran := false, false;
    if code == ReadOk || code == ReadBuffEmpty {
      var err;
      err, overran := p.ExtractAndHandleRequest(replies);
      ok := !err;
    }
    if !ok {
      p.conn.Close();
    }
  }
}
