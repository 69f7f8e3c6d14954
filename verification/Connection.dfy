/** Connection.cpp: receiving into and sending from a connection's chains. */
module Connection {
  import opened Sequences
  import opened ByteParts
  import opened ChainBuffer

  datatype ReadRc = ReadOk | ReadBuffEmpty | Closed | ReadError
  datatype WriteRc = WriteOk | SendBuffFull | WriteError

  /** What the kernel does with one `writev`: take at most so many bytes, or refuse. */
  datatype Kernel = Takes(limit: nat) | Refuses(code: WriteRc)

  /** How `send` stands once the kernel's answers are used up, or it has returned. */
  datatype Sending = Sending(returned: bool, code: WriteRc, length: nat)

  /** A refusal is no success. */
  predicate Answers(kernel: seq<Kernel>) {
    forall i :: 0 <= i < |kernel| && kernel[i].Refuses? ==> kernel[i].code != WriteOk
  }

  /** The kernel never refuses. */
  predicate Accepts(kernel: seq<Kernel>) {
    forall i :: 0 <= i < |kernel| ==> kernel[i].Takes?
  }

  /** The kernel never refuses, takes something each time and is asked often enough for `n` bytes. */
  predicate Drains(kernel: seq<Kernel>, n: nat) {
    |kernel| > n && forall i :: 0 <= i < |kernel| ==> kernel[i].Takes? && kernel[i].limit > 0
  }

  lemma DrainsAll(kernel: seq<Kernel>, n: nat)
    ensures Drains(kernel, n) ==> |kernel| > n
  {}

  lemma AnswerAt(kernel: seq<Kernel>, n: nat, i: nat)
    requires Answers(kernel) && i < |kernel|
    ensures kernel[i].Refuses? ==> kernel[i].code != WriteOk
    ensures Accepts(kernel) ==> kernel[i].Takes?
    ensures Drains(kernel, n) ==> kernel[i].Takes? && kernel[i].limit > 0
  {}

  /** What becomes of output in such parts: at each turn the kernel takes bytes before the first empty part. */
  function Sends(parts: seq<string>, kernel: seq<Kernel>): Sending
    decreases |kernel|
  {
    if kernel == [] then Sending(false, WriteOk, 0)
    else
      var n := Taken(parts, kernel[0]);
      var left := DropBytes(parts, n);
      var code := if kernel[0].Takes? then WriteOk else kernel[0].code;
      if left == [] || code != WriteOk then Sending(true, code, n)
      else var later := Sends(left, kernel[1..]); later.(length := n + later.length)
  }

  function Taken(parts: seq<string>, answer: Kernel): nat {
    if answer.Takes? then Min(answer.limit, |Concat(Leading(parts))|) else 0
  }

  class RxConnection {
    const inputBuf: ChainBuffer
    const outputBuf: ChainBuffer
    var sockWritable: bool
    var isOpen: bool

    ghost predicate Valid()
      reads this, inputBuf, inputBuf.Repr, outputBuf, outputBuf.Repr
    {
      inputBuf != outputBuf && inputBuf.Valid() && outputBuf.Valid()
    }

    constructor ()
      ensures Valid() && sockWritable && isOpen && fresh(inputBuf) && fresh(outputBuf)
      ensures inputBuf.CanAppend() && inputBuf.slices == [] && inputBuf.parts == []
      ensures inputBuf.put == inputBuf.got == ""
      ensures inputBuf.Repr == {} && inputBuf.Contents() == "" && outputBuf.Contents() == ""
      ensures outputBuf.CanAppend() && outputBuf.slices == [] && outputBuf.parts == [] && outputBuf.Repr == {}
    {
      inputBuf := new ChainBuffer();
      outputBuf := new ChainBuffer();
      sockWritable, isOpen := true, true;
    }

    /** The chains are no longer of use afterwards. */
    method Close()
      modifies this`isOpen
      ensures !isOpen
    {
      isOpen := false;
    }

    /** Read until the kernel has no more: `wire` is all there is, of which the kernel gives at least one
        byte at a time, and `ending` the code of the last read. That read, which delivers nothing, adds an
        empty slice if what was delivered has filled the last slice exactly. */
    method Recv(wire: string, pieces: nat -> nat, ending: ReadRc) returns (code: ReadRc, recvLen: nat)
      requires inputBuf.Valid() && inputBuf.CanAppend() && ending != ReadOk
      modifies inputBuf, inputBuf.TailRaw()
      ensures inputBuf.Valid() && inputBuf.CanAppend() && code == ending && recvLen == |wire|
      ensures inputBuf.Contents() == old(inputBuf.Contents()) + wire && inputBuf.put == old(inputBuf.put) + wire
      ensures inputBuf.got == old(inputBuf.got) && inputBuf.cuts == old(inputBuf.cuts)
      ensures old(inputBuf.Room()) >= 0
      ensures NonEmpty(inputBuf.parts) <==>
                && LeavesRoom(old(inputBuf.Room()), |wire|)
                && if wire == "" then NonEmpty(old(inputBuf.parts))
                   else Ready(old(inputBuf.parts), old(inputBuf.Room()))
      ensures Ready(inputBuf.parts, inputBuf.Room()) <==> Ready(old(inputBuf.parts), old(inputBuf.Room()))
      ensures fresh(inputBuf.Repr - old(inputBuf.Repr)) && old(inputBuf.Repr) <= inputBuf.Repr
    {
      hide Concat, ChainBuffer.Valid, ChainBuffer.CanAppend, ChainBuffer.Contents;
      hide Ready, NonEmpty, RoomAfter, ChainBuffer.Room;
      inputBuf.RoomIsLeft();
      NoMoreRoom(inputBuf.Room());
      var left, calls := wire, 0;
      recvLen, code := 0, ReadOk;
      while code == ReadOk
        invariant inputBuf.Valid() && inputBuf.CanAppend() && (code == ReadOk || (code == ending && left == ""))
        invariant recvLen + |left| == |wire|
        invariant inputBuf.Contents() + left == old(inputBuf.Contents()) + wire
        invariant inputBuf.put + left == old(inputBuf.put) + wire
        invariant inputBuf.got == old(inputBuf.got) && inputBuf.cuts == old(inputBuf.cuts)
        invariant inputBuf.TailRaw() <= old(inputBuf.TailRaw()) || fresh(inputBuf.TailRaw())
        invariant fresh(inputBuf.Repr - old(inputBuf.Repr)) && old(inputBuf.Repr) <= inputBuf.Repr
        invariant Ready(inputBuf.parts, inputBuf.Room()) <==> Ready(old(inputBuf.parts), old(inputBuf.Room()))
        invariant code == ReadOk ==> inputBuf.Room() == RoomAfter(old(inputBuf.Room()), recvLen)
        invariant code == ReadOk && recvLen == 0 ==> inputBuf.parts == old(inputBuf.parts)
        invariant code == ReadOk && recvLen > 0 ==>
                    (NonEmpty(inputBuf.parts) <==> Ready(old(inputBuf.parts), old(inputBuf.Room())))
        invariant code != ReadOk ==>
                    (NonEmpty(inputBuf.parts) <==>
                     && RoomAfter(old(inputBuf.Room()), |wire|) > 0
                     && if wire == "" then NonEmpty(old(inputBuf.parts))
                        else Ready(old(inputBuf.parts), old(inputBuf.Room())))
        decreases |left|, if code == ReadOk then 1 else 0
      {
        var n;
        ghost var held := inputBuf.Repr;
        n, code := RecvOnce(left, pieces(calls), ending);
        assert fresh(inputBuf.Repr - held) && fresh(held - old(inputBuf.Repr));
        RoomAfterTwice(old(inputBuf.Room()), recvLen, n);
        left := left[n..];
        recvLen := recvLen + n;
        calls := calls + 1;
      }
      assert inputBuf.Contents() == inputBuf.Contents() + left && inputBuf.put == inputBuf.put + left;
    }

    /** One call of `read_from_fd` from `recv`. */
    method RecvOnce(left: string, most: nat, ending: ReadRc) returns (n: nat, code: ReadRc)
      requires inputBuf.Valid() && inputBuf.CanAppend() && ending != ReadOk
      modifies inputBuf`slices, inputBuf`parts, inputBuf`put, inputBuf`owned, inputBuf`Repr, inputBuf.TailRaw()
      ensures inputBuf.Valid() && inputBuf.CanAppend()
      ensures n <= |left| && code == (if left == "" then ending else ReadOk) && (left != "" ==> n > 0)
      ensures inputBuf.Contents() + left[n..] == old(inputBuf.Contents()) + left
      ensures inputBuf.put + left[n..] == old(inputBuf.put) + left
      ensures old(inputBuf.Room()) >= 0
      ensures n > 0 ==> inputBuf.Room() == RoomAfter(old(inputBuf.Room()), n)
      ensures n > 0 ==> (NonEmpty(inputBuf.parts) <==> Ready(old(inputBuf.parts), old(inputBuf.Room())))
      ensures n == 0 ==> (NonEmpty(inputBuf.parts) <==> NonEmpty(old(inputBuf.parts)) && old(inputBuf.Room()) > 0)
      ensures Ready(inputBuf.parts, inputBuf.Room()) <==> Ready(old(inputBuf.parts), old(inputBuf.Room()))
      ensures inputBuf.TailRaw() <= old(inputBuf.TailRaw()) || fresh(inputBuf.TailRaw())
      ensures fresh(inputBuf.Repr - old(inputBuf.Repr)) && old(inputBuf.Repr) <= inputBuf.Repr
    {
      hide Concat, ChainBuffer.Valid, ChainBuffer.CanAppend, ChainBuffer.Contents, ChainBuffer.TailRaw;
      hide Ready, NonEmpty, RoomAfter, ChainBuffer.Room;
      var offered := left[..Min(if most == 0 then 1 else most, |left|)];
      n := inputBuf.ReadFromFd(offered);
      code := if offered == "" then ending else ReadOk;
      assert left == offered[..n] + left[n..];
    }

    /** Write until the chain is empty or the kernel refuses; `kernel` lists what the kernel answers, and
        if the answers run out first the loop is still going. */
    method Send(kernel: seq<Kernel>) returns (res: Sending)
      requires Valid() && Answers(kernel)
      modifies this`sockWritable, outputBuf`slices, outputBuf`parts, outputBuf`got
      ensures outputBuf.Valid() && (old(outputBuf.CanAppend()) ==> outputBuf.CanAppend())
      ensures res.length <= |old(outputBuf.Contents())|
      ensures outputBuf.Contents() == old(outputBuf.Contents())[res.length..]
      ensures outputBuf.got == old(outputBuf.got) + old(outputBuf.Contents())[..res.length]
      ensures res.returned && res.code == WriteOk ==>
                outputBuf.slices == [] && res.length == |old(outputBuf.Contents())|
      ensures res.returned && res.code == WriteOk ==> NonEmpty(old(outputBuf.parts))
      ensures NonEmpty(old(outputBuf.parts)) && Drains(kernel, |old(outputBuf.Contents())|) ==>
                res.returned && res.code == WriteOk
      ensures !NonEmpty(old(outputBuf.parts)) && Accepts(kernel) ==> !res.returned
      ensures res == Sends(old(outputBuf.parts), kernel)
      ensures kernel != [] && kernel[0].Refuses? ==> res == Sending(true, kernel[0].code, 0)
      ensures sockWritable == (old(sockWritable) && !(res.returned && res.code == SendBuffFull))
    {
      hide Concat, DropBytes, ChainBuffer.Valid, ChainBuffer.CanAppend, NonEmpty, Answers, Accepts, Drains;
      hide Taken, Leading;
      ghost var all := outputBuf.Contents();
      res := Sending(false, WriteOk, 0);
      var i := 0;
      while i < |kernel| && !res.returned
        invariant 0 <= i <= |kernel| && outputBuf.Valid() && res.length <= |all|
        invariant old(outputBuf.CanAppend()) ==> outputBuf.CanAppend()
        invariant outputBuf.Contents() == all[res.length..]
        invariant outputBuf.got == old(outputBuf.got) + all[..res.length]
        invariant NonEmpty(outputBuf.parts) == NonEmpty(old(outputBuf.parts))
        invariant res.returned && res.code == WriteOk ==>
                    outputBuf.slices == [] && NonEmpty(outputBuf.parts) && res.length == |all|
        invariant sockWritable == old(sockWritable)
        invariant !NonEmpty(old(outputBuf.parts)) && Accepts(kernel) ==> !res.returned
        invariant !res.returned ==> res.code == WriteOk
        invariant if i == 0 then res == Sending(false, WriteOk, 0)
                  else kernel[0].Refuses? ==> res == Sending(true, kernel[0].code, 0)
        invariant NonEmpty(old(outputBuf.parts)) && Drains(kernel, |all|) ==>
                    res.code == WriteOk && (res.returned || res.length >= i)
        invariant Sends(old(outputBuf.parts), kernel) ==
                    if res.returned then res
                    else var later := Sends(outputBuf.parts, kernel[i..]); later.(length := res.length + later.length)
      {
        AnswerAt(kernel, |all|, i);
        var sent, code := SendOnce(kernel[i]);
        TakeMore(all, res.length, |sent|);
        outputBuf.FrontShape();
        var empty := outputBuf.Empty();
        assert kernel[i..][0] == kernel[i] && kernel[i..][1..] == kernel[i + 1..];
        res := Sending(empty || code != WriteOk, code, res.length + |sent|);
        i := i + 1;
      }
      DrainsAll(kernel, |all|);
      if res.returned && res.code == SendBuffFull {
        sockWritable := false;
      }
    }

    /** One call of `write_to_fd` from `send`. */
    method SendOnce(answer: Kernel) returns (sent: string, code: WriteRc)
      requires outputBuf.Valid() && (answer.Refuses? ==> answer.code != WriteOk)
      modifies outputBuf`slices, outputBuf`parts, outputBuf`got
      ensures outputBuf.Valid() && (old(outputBuf.CanAppend()) ==> outputBuf.CanAppend())
      ensures code == (if answer.Takes? then WriteOk else answer.code)
      ensures |sent| == Taken(old(outputBuf.parts), answer)
          && outputBuf.parts == DropBytes(old(outputBuf.parts), |sent|)
      ensures |sent| <= |old(outputBuf.Contents())| && sent == old(outputBuf.Contents())[..|sent|]
      ensures outputBuf.Contents() == old(outputBuf.Contents())[|sent|..]
      ensures outputBuf.got == old(outputBuf.got) + sent
      ensures NonEmpty(outputBuf.parts) == NonEmpty(old(outputBuf.parts)) && (answer.Refuses? ==> sent == "")
      ensures NonEmpty(outputBuf.parts) && answer.Takes? && answer.limit > 0 && sent == "" ==> outputBuf.slices == []
    {
      hide Concat, DropBytes, ChainBuffer.Valid, ChainBuffer.CanAppend, NonEmpty;
      ghost var parts := outputBuf.parts;
      sent := outputBuf.WriteToFd(if answer.Takes? then answer.limit else 0);
      code := if answer.Takes? then WriteOk else answer.code;
      if NonEmpty(parts) {
        DropKeepsNonEmpty(parts, |sent|);
        LeadingIsPrefix(parts);
        if sent == "" {
          outputBuf.NoBytesNoSlices();
        }
      } else {
        DropKeepsEmpty(parts, |sent|);
      }
    }
  }

  /** A first delivery of exactly one chunk leaves the input with an empty slice behind its bytes. */
  method OneChunkLeavesAGap(conn: RxConnection, wire: string)
    requires conn.inputBuf.Valid() && conn.inputBuf.CanAppend() && conn.inputBuf.slices == [] && |wire| == CHUNK
    modifies conn.inputBuf
    ensures conn.inputBuf.Contents() == old(conn.inputBuf.Contents()) + wire && !NonEmpty(conn.inputBuf.parts)
  {
    var _, _ := conn.Recv(wire, _ => CHUNK, ReadBuffEmpty);
  }
}
