/** ProtocolEcho.h: whatever a connection receives is sent back by swapping its chains. */
module Echo {
  import opened Sequences
  import opened ByteParts
  import opened ChainBuffer
  import opened Connection

  /** Every byte that came in has gone out or waits in one of the chains. */
  ghost predicate Conserved(received: string, sent: string, output: string, input: string) {
    multiset(received) == multiset(sent) + multiset(output) + multiset(input)
  }

  lemma SwapConserves(received: string, sent: string, output: string, input: string, n: nat)
    requires Conserved(received, sent, output, input) && n <= |input|
    ensures Conserved(received, sent + input[..n], input[n..], output)
  {
    assert input == input[..n] + input[n..];
  }

  class EchoProcessor {
    const conn: RxConnection

    /** All bytes that ever came in, and all that went out. */
    ghost var received: string
    ghost var sent: string

    ghost function Input(): string
      reads conn.inputBuf`parts
    {
      conn.inputBuf.Contents()
    }

    ghost function Output(): string
      reads conn.outputBuf`parts
    {
      conn.outputBuf.Contents()
    }

    /** The chains share no array, and no byte is lost. */
    ghost predicate Valid()
      reads this, conn, conn.inputBuf, conn.inputBuf.Repr, conn.outputBuf, conn.outputBuf.Repr
    {
      && conn.Valid() && conn.inputBuf.CanAppend() && conn.outputBuf.CanAppend()
      && conn.inputBuf.Repr !! conn.outputBuf.Repr && Conserved(received, sent, Output(), Input())
    }

    /** What went out is what came in, in order, and what is to come out next follows it. */
    ghost predicate InOrder()
      reads this, conn.inputBuf`parts, conn.outputBuf`parts
    {
      received == sent + Output() && Input() == ""
    }

    constructor ()
      ensures Valid() && InOrder() && received == "" && conn.isOpen
      ensures fresh(conn) && fresh(conn.inputBuf) && fresh(conn.outputBuf)
      ensures conn.inputBuf.slices == [] && conn.outputBuf.slices == []
    {
      conn := new RxConnection();
      received, sent := "", "";
    }

    /** The received chain becomes the output chain, and what was still unsent becomes the input chain. The
        call returns with everything sent only if the received chain has no empty slice, and if so, it does
        whenever the kernel takes all; with one, it goes on for as long as the kernel does not refuse. */
    method ProcessReadData(kernel: seq<Kernel>) returns (res: Sending)
      requires Valid() && Answers(kernel)
      modifies this`sent, conn`sockWritable, conn.inputBuf, conn.outputBuf
      ensures Valid() && res.length <= |old(Input())|
      ensures sent == old(sent) + old(Input())[..res.length] && Output() == old(Input())[res.length..]
      ensures Input() == old(Output()) && conn.inputBuf.slices == old(conn.outputBuf.slices)
      ensures res.returned && res.code == WriteOk ==>
                NonEmpty(old(conn.inputBuf.parts)) && res.length == |old(Input())| && conn.outputBuf.slices == []
      ensures NonEmpty(old(conn.inputBuf.parts)) && Drains(kernel, |old(Input())|) ==>
                res.returned && res.code == WriteOk
      ensures !NonEmpty(old(conn.inputBuf.parts)) && Accepts(kernel) ==> !res.returned
      ensures kernel != [] && kernel[0].Refuses? ==> res == Sending(true, kernel[0].code, 0)
    {
      hide Concat, NonEmpty, ChainBuffer.Valid, ChainBuffer.CanAppend, Conserved;
      ghost var all, unsent := Input(), Output();
      conn.inputBuf.Swap(conn.outputBuf);
      res := conn.Send(kernel);
      SwapConserves(received, sent, unsent, all, res.length);
      sent := sent + all[..res.length];
    }

    /** `recv` of the connection, seen from the processor. */
    method Receive(wire: string, pieces: nat -> nat, ending: ReadRc) returns (code: ReadRc)
      requires Valid() && ending != ReadOk
      modifies this`received, conn.inputBuf, conn.inputBuf.TailRaw()
      ensures Valid() && code == ending && received == old(received) + wire
      ensures Input() == old(Input()) + wire && unchanged(conn.outputBuf)
      ensures old(conn.inputBuf.slices) == [] ==>
                old(Input()) == "" && (NonEmpty(conn.inputBuf.parts) <==> |wire| % CHUNK != 0)
    {
      hide ChainBuffer.Valid, ChainBuffer.CanAppend, BufferSlice.Bytes;
      TailIsHeld(conn.inputBuf);
      conn.inputBuf.NoBytesNoSlices();
      var length;
      code, length := conn.Recv(wire, pieces, ending);
      received := received + wire;
    }

    /** `on_stream_readable` for an echo connection. The bytes of a delivery, behind those the last swap has
        put into the input chain, go out unless the connection ends with them; they go out in order if
        nothing was still to be sent. */
    method OnStreamReadable(wire: string, pieces: nat -> nat, ending: ReadRc, kernel: seq<Kernel>)
      returns (ok: bool, res: Sending)
      requires Valid() && conn.isOpen && ending != ReadOk && Answers(kernel)
      modifies this, conn, conn.inputBuf, conn.inputBuf.TailRaw(), conn.outputBuf
      ensures Valid() && received == old(received) + wire && ok == conn.isOpen == (ending == ReadBuffEmpty)
      ensures !ok ==> sent == old(sent) && res == Sending(false, WriteOk, 0)
      ensures ok ==>
                && var all := old(Input()) + wire;
                && res.length <= |all| && sent == old(sent) + all[..res.length] && Output() == all[res.length..]
                && Input() == old(Output()) && conn.inputBuf.slices == old(conn.outputBuf.slices)
      ensures ok && old(InOrder()) && old(Output()) == "" ==> InOrder()
      ensures res.returned && res.code == WriteOk ==> conn.outputBuf.slices == [] && Output() == ""
      ensures old(conn.inputBuf.slices) == [] && res.returned && res.code == WriteOk ==> |wire| % CHUNK != 0
      ensures ok && old(conn.inputBuf.slices) == [] && |wire| % CHUNK != 0 && Drains(kernel, |wire|) ==>
                res.returned && res.code == WriteOk
      ensures ok && old(conn.inputBuf.slices) == [] && |wire| % CHUNK == 0 && Accepts(kernel) ==> !res.returned
      ensures ok && kernel != [] && kernel[0].Refuses? ==> res == Sending(true, kernel[0].code, 0)
    {
      hide Concat, NonEmpty, ChainBuffer.Valid, ChainBuffer.CanAppend, Answers, Accepts, Drains;
      hide Conserved;
      ok, res := false, Sending(false, WriteOk, 0);
      ghost var all := Input() + wire;
      var code := Receive(wire, pieces, ending);
      if code == ReadOk || code == ReadBuffEmpty {
        res := ProcessReadData(kernel);
        ok := true;
        InTurn(old(received), old(sent), wire, all, res.length);
      } else {
        conn.Close();
      }
    }

    lemma {:induction false} InTurn(received: string, sent: string, wire: string, all: string, n: nat)
      requires n <= |all|
      ensures received == sent && all == wire ==> received + wire == sent + all[..n] + all[n..]
    {
      assert all == all[..n] + all[n..];
      assert sent + all[..n] + all[n..] == sent + (all[..n] + all[n..]);
    }
  }

  /** A first delivery of a whole number of chunks is never reported as sent: its bytes may go out, but then
      the loop goes on with the empty slice behind them. */
  method ChunksLoop(wire: string, pieces: nat -> nat, kernel: seq<Kernel>) returns (ok: bool, res: Sending)
    requires |wire| % CHUNK == 0 && Accepts(kernel)
    ensures ok && !res.returned
  {
    var p := new EchoProcessor();
    ok, res := p.OnStreamReadable(wire, pieces, ReadBuffEmpty, kernel);
  }

  /** While bytes are still to be sent, a delivery overtakes them: it may go out before them. */
  method Overtakes(p: EchoProcessor, c: char) returns (res: Sending)
    requires p.Valid() && p.InOrder() && p.conn.isOpen && p.conn.inputBuf.slices == []
    requires p.Output() != "" && p.Output()[0] != c
    modifies p, p.conn, p.conn.inputBuf, p.conn.inputBuf.TailRaw(), p.conn.outputBuf
    ensures p.Valid() && p.received == old(p.received) + [c] && p.sent == old(p.sent) + [c]
    ensures !(p.sent <= p.received)
  {
    hide EchoProcessor.Valid;
    ghost var n := |p.sent|;
    assert p.received[n] == p.Output()[0];
    var ok;
    ok, res := p.OnStreamReadable([c], _ => 1, ReadBuffEmpty, [Takes(1), Takes(1)]);
    assert p.sent[n] == c && p.received[n] != c;
  }

  /** A first delivery of `a`, while the send buffer is full, and then one of `b`: `b` goes out first. */
  method OvertakesExample() returns (p: EchoProcessor)
    ensures p.received == "ab" && p.sent == "b"
  {
    hide EchoProcessor.Valid;
    p := new EchoProcessor();
    var _, _ := p.OnStreamReadable("a", _ => 1, ReadBuffEmpty, [Refuses(SendBuffFull)]);
    var _ := Overtakes(p, 'b');
  }
}
