/** Buffer.cpp: a chain of slices of shared byte arrays that behaves as a pipe of bytes, and from which
    slices can be cut without copying. */
module ChainBuffer {
  import opened Sequences
  import opened ByteParts

  const CHUNK: nat := 9012
  const EXTRA: nat := 65535

  /** Bytes `start` to `end` of a shared array; bytes from `end` on may be written. */
  datatype BufferSlice = BufferSlice(raw: array<char>, start: nat, end: nat) {
    predicate Ok() { start <= end <= raw.Length }

    function Readable(): nat
      requires Ok()
    {
      end - start
    }

    function Writable(): nat
      requires Ok()
    {
      raw.Length - end
    }

    function Bytes(): string
      requires Ok()
      reads raw
    {
      raw[start..end]
    }

    /** `advance_read`: a slice read to its end starts over. */
    function AdvanceRead(n: nat): BufferSlice
      requires Ok() && n <= Readable()
    {
      if start + n == end then BufferSlice(raw, 0, 0) else BufferSlice(raw, start + n, end)
    }
  }

  /** No bytes of `s` are in the writable part of `tail`. */
  predicate Apart(s: BufferSlice, tail: BufferSlice) {
    s.raw == tail.raw ==> s.end <= tail.end
  }

  /** Adding `n` bytes does not end where a slice ends. */
  predicate LeavesRoom(room: nat, n: nat) {
    n < room || (n - room) % CHUNK != 0
  }

  /** The room in the last slice once `n` bytes were added, by filling up the last slice and then new ones. */
  function RoomAfter(room: nat, n: nat): (r: nat)
    ensures r > 0 <==> LeavesRoom(room, n)
  {
    if n < room then room - n
    else
      var k := (n - room) % CHUNK;
      if k == 0 then 0 else CHUNK - k
  }

  lemma RoomAfterTwice(room: nat, a: nat, b: nat)
    ensures RoomAfter(RoomAfter(room, a), b) == RoomAfter(room, a + b)
  {
    if a >= room {
      var k := (a - room) % CHUNK;
      AddMod(a - room, b, k);
      if k > 0 && b >= CHUNK - k {
        AddMod(k, b, k);
        AddMod(CHUNK, b - (CHUNK - k), 0);
      }
    }
  }

  lemma AddMod(x: nat, y: nat, k: nat)
    requires k == x % CHUNK
    ensures (x + y) % CHUNK == (k + y) % CHUNK
  {
    assert x == CHUNK * (x / CHUNK) + k;
    assert x + y == CHUNK * (x / CHUNK) + (k + y);
  }

  /** A new slice is added only for bytes to come, and then there is room for `CHUNK` of them. */
  lemma RoomAfterExpand(room: nat, n: nat)
    requires n > 0 && room == 0
    ensures RoomAfter(CHUNK, n) == RoomAfter(room, n)
  {
    if n >= CHUNK {
      AddMod(CHUNK, n - CHUNK, 0);
    }
  }

  lemma SomeRoom(room: nat, n: nat)
    requires 0 < n <= if room > 0 then room else CHUNK
    ensures RoomAfter(room, n) == (if room > 0 then room else CHUNK) - n
  {
    if room == 0 {
      RoomAfterExpand(room, n);
    } else if n == room {
      assert (n - room) % CHUNK == 0;
    }
    if n == CHUNK {
      assert (n - CHUNK) % CHUNK == 0;
    }
  }

  lemma NoMoreRoom(room: nat)
    ensures RoomAfter(room, 0) == room
  {}

  /** A new slice without bytes is a gap. */
  lemma ExpandedIsReady(parts: seq<string>, room: nat, expanded: seq<string>, room': int)
    requires expanded == if room > 0 then parts else parts + [""]
    requires room' > 0
    ensures NonEmpty(expanded) <==> NonEmpty(parts) && room > 0
    ensures Ready(expanded, room') <==> Ready(parts, room)
  {
    if room == 0 {
      assert expanded[|parts|] == "";
      assert forall i :: 0 <= i < |parts| ==> expanded[i] == parts[i];
    }
  }

  twostate lemma {:induction false} SameBytes(s: BufferSlice)
    requires s.Ok() && forall i :: 0 <= i < s.end ==> s.raw[i] == old(s.raw[i])
    ensures s.Bytes() == old(s.Bytes())
  {}

  lemma {:induction false} MoreBytes(s: BufferSlice, n: nat)
    requires s.Ok() && n <= s.Writable()
    ensures s.(end := s.end + n).Bytes() == s.Bytes() + s.raw[s.end..s.end + n]
  {}

  lemma {:induction false} BytesAfter(s: BufferSlice, n: nat)
    requires s.Ok() && n < s.Readable()
    ensures s.AdvanceRead(n).Ok() && s.AdvanceRead(n).Bytes() == s.Bytes()[n..]
  {}

  class ChainBuffer {
    var slices: seq<BufferSlice>

    /** The bytes of each slice. */
    ghost var parts: seq<string>
    /** The slices cut so far, and the bytes they had when they were cut. */
    ghost var cuts: map<BufferSlice, string>
    /** Everything put in, and everything taken out at the front. */
    ghost var put: string
    ghost var got: string
    /** The writable part of the last slice belongs to this chain alone. */
    ghost var owned: bool
    ghost var Repr: set<array<char>>

    ghost function Contents(): string
      reads this`parts
    {
      Concat(parts)
    }

    ghost predicate SlicesOk()
      reads this`slices, this`parts, this`Repr, Repr
    {
      && |parts| == |slices|
      && forall i :: 0 <= i < |slices| ==>
           slices[i].raw in Repr && slices[i].Ok() && slices[i].Bytes() == parts[i]
    }

    ghost predicate CutsOk()
      reads this`cuts, this`Repr, Repr
    {
      forall s :: s in cuts ==> s.raw in Repr && s.Ok() && s.Bytes() == cuts[s]
    }

    /** What may be written next belongs to no slice and to no cut. */
    ghost predicate TailOk()
      reads this`slices, this`cuts, this`owned
    {
      owned && slices != [] ==>
        && (forall i :: 0 <= i < |slices| ==> Apart(slices[i], slices[|slices| - 1]))
        && (forall s :: s in cuts ==> Apart(s, slices[|slices| - 1]))
    }

    /** The pipe: what was put in is what was taken out followed by what is still there. */
    ghost predicate Valid()
      reads this, Repr
    {
      SlicesOk() && CutsOk() && TailOk() && put == got + Contents()
    }

    /** Appending needs a last slice that is full or owned. */
    ghost predicate CanAppend()
      reads this
    {
      slices == [] || owned || slices[|slices| - 1].raw.Length <= slices[|slices| - 1].end
    }

    /** The room in the last slice. */
    ghost function Room(): int
      reads this`slices
    {
      if slices == [] then 0 else slices[|slices| - 1].raw.Length - slices[|slices| - 1].end
    }

    ghost function TailRaw(): set<array<char>>
      reads this`slices
    {
      if slices == [] then {} else {slices[|slices| - 1].raw}
    }

    constructor ()
      ensures Valid() && CanAppend() && slices == [] && parts == [] && cuts == map[] && put == got == "" && Repr == {}
    {
      slices, parts, cuts, put, got, owned, Repr := [], [], map[], "", "", true, {};
    }

    method Empty() returns (empty: bool)
      requires Valid()
      ensures empty == (slices == []) && (empty ==> parts == [] && NonEmpty(parts) && Contents() == "")
    {
      empty := slices == [];
    }

    method CheckNeedExpand()
      requires Valid() && CanAppend()
      modifies this`slices, this`parts, this`owned, this`Repr
      ensures Valid() && owned && slices != [] && slices[|slices| - 1].Writable() > 0
      ensures old(Room()) > 0 ==> old(parts) != []
      ensures Contents() == old(Contents()) && old(Repr) <= Repr && fresh(Repr - old(Repr))
      ensures TailRaw() <= old(TailRaw()) || fresh(TailRaw())
      ensures old(Room()) >= 0 && Room() == if old(Room()) > 0 then old(Room()) else CHUNK
      ensures parts == if old(Room()) > 0 then old(parts) else old(parts) + [""]
    {
      hide Concat;
      if slices == [] || slices[|slices| - 1].Writable() == 0 {
        var raw := new char[CHUNK];
        ConcatPush(parts, "");
        slices := slices + [BufferSlice(raw, 0, 0)];
        parts := parts + [""];
        owned := true;
        Repr := Repr + {raw};
      }
    }

    /** Copy bytes behind the last slice, without yet making them readable. */
    method CopyToTail(data: string)
      requires Valid() && owned && slices != [] && |data| <= slices[|slices| - 1].Writable()
      modifies TailRaw()
      ensures Valid()
      ensures var tail := slices[|slices| - 1]; tail.raw[tail.end..tail.end + |data|] == data
    {
      hide Concat, Contents, BufferSlice.Bytes;
      var tail := slices[|slices| - 1];
      var raw, at := tail.raw, tail.end;
      forall i | 0 <= i < |data| {
        raw[at + i] := data[i];
      }
      forall s | s in slices || s in cuts
        ensures s.Bytes() == old(s.Bytes())
      {
        assert Apart(s, tail);
        SameBytes(s);
      }
    }

    /** Make the next `n` bytes behind the last slice readable. */
    method AdvanceWrite(n: nat)
      requires Valid() && owned && slices != [] && n <= slices[|slices| - 1].Writable()
      modifies this`slices, this`parts, this`put
      ensures Valid() && slices != [] && TailRaw() == old(TailRaw()) && |old(parts)| > 0
      ensures var tail := old(slices[|slices| - 1]); Contents() == old(Contents()) + tail.raw[tail.end..tail.end + n]
      ensures var tail, last := old(slices[|slices| - 1]), |old(parts)| - 1;
        parts == old(parts)[..last] + [old(parts)[last] + tail.raw[tail.end..tail.end + n]]
      ensures Room() == old(Room()) - n
      ensures put == old(put) + Contents()[|old(Contents())|..]
    {
      hide Concat, CutsOk, BufferSlice.Bytes;
      var last := |slices| - 1;
      var tail := slices[last];
      ghost var more := tail.raw[tail.end..tail.end + n];
      MoreBytes(tail, n);
      ConcatGrow(parts, more);
      slices := slices[last := tail.(end := tail.end + n)];
      parts := parts[last := parts[last] + more];
      put := put + more;
    }

    /** One turn of `append`: as much of the data as the last slice has room for. */
    method AppendSome(data: string) returns (size: nat)
      requires Valid() && CanAppend() && data != ""
      modifies this`slices, this`parts, this`put, this`owned, this`Repr, TailRaw()
      ensures 0 < size <= |data|
      ensures Valid() && CanAppend() && Contents() == old(Contents()) + data[..size] && put == old(put) + data[..size]
      ensures old(Room()) >= 0 && Room() == RoomAfter(old(Room()), size)
      ensures NonEmpty(parts) <==> Ready(old(parts), old(Room()))
      ensures Ready(parts, Room()) <==> Ready(old(parts), old(Room()))
      ensures old(Repr) <= Repr && fresh(Repr - old(Repr)) && (TailRaw() <= old(TailRaw()) || fresh(TailRaw()))
    {
      hide Concat, SlicesOk, CutsOk, TailOk, BufferSlice.Bytes, NonEmpty, Ready, RoomAfter;
      ghost var was, room := parts, Room();
      CheckNeedExpand();
      TailShape();
      var tail := slices[|slices| - 1];
      size := if tail.Writable() > |data| then |data| else tail.Writable();
      Fill(data[..size], was, room);
    }

    /** Put bytes into the room that `check_need_expand` made, starting from the slices `was`. */
    method Fill(data: string, ghost was: seq<string>, ghost room: nat)
      requires Valid() && owned && slices != [] && 0 < |data| <= Room() && (room > 0 ==> was != [])
      requires parts == (if room > 0 then was else was + [""]) && Room() == if room > 0 then room else CHUNK
      modifies this`slices, this`parts, this`put, TailRaw()
      ensures Valid() && slices != [] && TailRaw() == old(TailRaw())
      ensures Contents() == old(Contents()) + data && put == old(put) + data
      ensures Room() == RoomAfter(room, |data|)
      ensures NonEmpty(parts) <==> Ready(was, room)
      ensures Ready(parts, Room()) <==> Ready(was, room)
    {
      hide Concat, SlicesOk, CutsOk, TailOk, BufferSlice.Bytes, NonEmpty, Ready, RoomAfter;
      TailShape();
      CopyToTail(data);
      AdvanceWrite(|data|);
      SomeRoom(room, |data|);
      assert "" + data == data;
      assert (was + [""])[..|was|] == was;
      GrownIsReady(was, room, data, parts, Room());
    }

    method Append(data: string)
      requires Valid() && CanAppend()
      modifies this`slices, this`parts, this`put, this`owned, this`Repr, TailRaw()
      ensures Valid() && CanAppend() && Contents() == old(Contents()) + data && put == old(put) + data
      ensures old(Room()) >= 0 && Room() == RoomAfter(old(Room()), |data|)
      ensures if data == "" then parts == old(parts) else NonEmpty(parts) <==> Ready(old(parts), old(Room()))
      ensures Ready(parts, Room()) <==> Ready(old(parts), old(Room()))
      ensures old(Repr) <= Repr && fresh(Repr - old(Repr)) && (TailRaw() <= old(TailRaw()) || fresh(TailRaw()))
    {
      hide Concat, Valid, CanAppend, NonEmpty, Ready, Room, RoomAfter;
      var left := data;
      RoomIsLeft();
      NoMoreRoom(Room());
      while left != ""
        invariant left == data[|data| - |left|..] && |left| <= |data| && Valid() && CanAppend()
        invariant Contents() + left == old(Contents()) + data && put + left == old(put) + data
        invariant Room() == RoomAfter(old(Room()), |data| - |left|)
        invariant if left == data then parts == old(parts) else NonEmpty(parts) <==> Ready(old(parts), old(Room()))
        invariant Ready(parts, Room()) <==> Ready(old(parts), old(Room()))
        invariant old(Repr) <= Repr && fresh(Repr - old(Repr)) && (TailRaw() <= old(TailRaw()) || fresh(TailRaw()))
        decreases |left|
      {
        var size := AppendSome(left);
        RoomAfterTwice(old(Room()), |data| - |left|, size);
        assert left == left[..size] + left[size..];
        left := left[size..];
      }
    }

    lemma {:induction false} RoomIsLeft()
      requires Valid()
      ensures Room() >= 0
    {}

    lemma {:induction false} SliceShape(i: nat)
      requires Valid() && i < |slices|
      ensures slices[i].Ok() && slices[i].raw in Repr && |parts[i]| == slices[i].end - slices[i].start
    {}

    lemma {:induction false} NoBytesNoSlices()
      requires Valid()
      ensures |parts| == |slices|
      ensures NonEmpty(parts) && Contents() == "" ==> slices == []
    {
      if parts != [] {
        assert Concat(parts) == parts[0] + Concat(parts[1..]);
      }
    }

    lemma {:induction false} TailShape()
      requires Valid() && slices != []
      ensures slices[|slices| - 1].Ok() && slices[|slices| - 1].raw in Repr && |parts| == |slices|
      ensures Room() == slices[|slices| - 1].Writable()
    {}

    /** `append` of one slice; its array may be shared, so nothing is owned afterwards. */
    method AppendSlice(slice: BufferSlice)
      requires Valid() && slice.Ok()
      modifies this
      ensures Valid() && cuts == old(cuts) && got == old(got)
      ensures slices == old(slices) + [slice] && parts == old(parts) + [slice.Bytes()]
      ensures Contents() == old(Contents()) + slice.Bytes() && Repr == old(Repr) + {slice.raw}
    {
      hide Concat;
      ConcatPush(parts, slice.Bytes());
      slices := slices + [slice];
      parts := parts + [slice.Bytes()];
      put := put + slice.Bytes();
      owned := false;
      Repr := Repr + {slice.raw};
    }

    ghost predicate TakesOver(buf: ChainBuffer)
      reads this`Repr, buf`slices, buf`owned, buf`Repr
    {
      buf.slices != [] && buf.owned && Repr !! buf.Repr
    }

    method EmplaceAll(buf: ChainBuffer)
      requires buf != this
      modifies this`slices
      ensures slices == old(slices) + buf.slices
    {
      var i := 0;
      while i < |buf.slices|
        invariant 0 <= i <= |buf.slices| && slices == old(slices) + buf.slices[..i]
      {
        slices := slices + [buf.slices[i]];
        i := i + 1;
      }
      assert buf.slices[..i] == buf.slices;
    }

    /** `append` of another chain, which is left empty. If it owns the free part of its last slice, and the
        two chains share no array, this chain owns it from then on, and vouches for its cuts. */
    method AppendChain(buf: ChainBuffer)
      requires Valid() && buf.Valid() && buf != this
      modifies this, buf
      ensures Valid() && buf.Valid() && buf.slices == []
      ensures parts == old(parts) + old(buf.parts) && slices == old(slices) + old(buf.slices)
      ensures Contents() == old(Contents()) + old(buf.Contents()) && got == old(got)
      ensures Repr == old(Repr) + old(buf.Repr)
      ensures if old(TakesOver(buf)) then owned && cuts == old(cuts) + old(buf.cuts) && buf.Repr == {}
              else owned == (old(owned) && old(buf.slices) == []) && cuts == old(cuts)
    {
      hide Concat, SlicesOk, CutsOk, Apart;
      ghost var mine, takesOver := slices, TakesOver(buf);
      SlicesIn(mine);
      if takesOver {
        buf.ApartFromTail();
      }
      MoveSlices(buf);
      if takesOver {
        OwnTail(buf, mine, old(Repr));
      }
    }

    /** The slices change hands. */
    method MoveSlices(buf: ChainBuffer)
      requires Valid() && buf.Valid() && buf != this
      modifies this`slices, this`parts, this`put, this`owned, this`Repr, buf`slices, buf`parts, buf`got
      ensures Valid() && buf.Valid() && buf.slices == [] && Repr == old(Repr) + buf.Repr
      ensures parts == old(parts) + old(buf.parts) && slices == old(slices) + old(buf.slices)
      ensures Contents() == old(Contents()) + old(buf.Contents())
      ensures owned == (old(owned) && old(buf.slices) == [])
    {
      hide Concat, Apart, BufferSlice.Bytes;
      EmplaceAll(buf);
      ConcatAppend(parts, buf.parts);
      put := put + buf.Contents();
      parts := parts + buf.parts;
      owned := owned && buf.slices == [];
      Repr := Repr + buf.Repr;
      buf.Clear();
    }

    /** The free part of the last slice, which came from `buf`, becomes this chain's own. */
    ghost method OwnTail(buf: ChainBuffer, mine: seq<BufferSlice>, held: set<array<char>>)
      requires Valid() && buf.Valid() && buf != this && mine < slices && buf.slices == []
      requires held !! buf.Repr && Repr == held + buf.Repr && slices[|slices| - 1].raw in buf.Repr
      requires forall s :: s in mine || s in cuts ==> s.raw in held
      requires forall s :: s in slices[|mine|..] || s in buf.cuts ==> Apart(s, slices[|slices| - 1])
      modifies this`owned, this`cuts, buf`cuts, buf`Repr
      ensures Valid() && buf.Valid() && owned && cuts == old(cuts) + old(buf.cuts) && buf.Repr == {}
    {
      hide Concat, BufferSlice.Bytes;
      owned := true;
      cuts, buf.cuts := cuts + buf.cuts, map[];
      buf.Repr := {};
    }

    lemma {:induction false} SlicesIn(mine: seq<BufferSlice>)
      requires Valid() && mine == slices
      ensures forall s :: s in mine || s in cuts ==> s.raw in Repr
    {}

    lemma {:induction false} ApartFromTail()
      requires Valid() && owned && slices != []
      ensures slices[|slices| - 1].raw in Repr
      ensures forall s :: s in slices || s in cuts ==> Apart(s, slices[|slices| - 1])
    {}

    /** `std::swap` of two chains. */
    method Swap(other: ChainBuffer)
      requires Valid() && other.Valid() && other != this
      modifies this, other
      ensures Valid() && other.Valid()
      ensures slices == old(other.slices) && parts == old(other.parts) && Repr == old(other.Repr)
      ensures other.slices == old(slices) && other.parts == old(parts) && other.Repr == old(Repr)
      ensures CanAppend() == old(other.CanAppend()) && other.CanAppend() == old(CanAppend())
    {
      hide Concat, SlicesOk, CutsOk, TailOk;
      slices, other.slices := other.slices, slices;
      parts, other.parts := other.parts, parts;
      cuts, other.cuts := other.cuts, cuts;
      put, other.put := other.put, put;
      got, other.got := other.got, got;
      owned, other.owned := other.owned, owned;
      Repr, other.Repr := other.Repr, Repr;
      TakesFrom(other);
      other.TakesFrom(this);
    }

    /** A chain with the fields that a valid one had is valid. */
    twostate lemma TakesFrom(other: ChainBuffer)
      requires old(other.Valid()) && slices == old(other.slices) && parts == old(other.parts) && Repr == old(other.Repr)
      requires cuts == old(other.cuts) && owned == old(other.owned) && put == old(other.put) && got == old(other.got)
      requires forall raw :: raw in Repr ==> unchanged(raw)
      ensures Valid() && CanAppend() == old(other.CanAppend())
    {
      hide Concat, Apart;
    }

    /** Everything still in the chain is dropped. */
    method Clear()
      requires CutsOk() && put == got + Contents()
      modifies this`slices, this`parts, this`got
      ensures Valid() && slices == [] && parts == []
    {
      got := put;
      slices, parts := [], [];
    }

    method PopFront()
      requires Valid() && slices != []
      modifies this`slices, this`parts, this`got
      ensures Valid() && slices == old(slices)[1..] && parts == old(parts)[1..]
    {
      got := got + parts[0];
      slices, parts := slices[1..], parts[1..];
      TailOfRest(old(slices));
    }

    lemma {:induction false} TailOfRest(before: seq<BufferSlice>)
      requires before != [] && slices == before[1..]
      ensures slices != [] ==> slices[|slices| - 1] == before[|before| - 1]
      ensures forall i :: 0 <= i < |slices| ==> slices[i] == before[i + 1]
    {}

    /** Read some but not all of the first slice. */
    method ReadFront(n: nat)
      requires Valid() && slices != [] && n < slices[0].Readable()
      modifies this`slices, this`parts, this`got
      ensures Valid() && parts == [old(parts)[0][n..]] + old(parts)[1..] && TailRaw() == old(TailRaw())
      ensures slices == old(slices)[0 := old(slices)[0].AdvanceRead(n)]
    {
      hide Concat, CutsOk, BufferSlice.Bytes;
      FrontShape();
      ConcatFront(parts, n);
      BytesAfter(slices[0], n);
      got := got + parts[0][..n];
      slices := slices[0 := slices[0].AdvanceRead(n)];
      parts := [parts[0][n..]] + parts[1..];
    }

    method CommitConsume(n: nat)
      requires Valid()
      modifies this`slices, this`parts, this`got
      ensures Valid() && parts == DropBytes(old(parts), n)
      ensures Contents() == old(Contents())[Min(n, |old(Contents())|)..]
      ensures got == old(got) + old(Contents())[..Min(n, |old(Contents())|)]
      ensures old(CanAppend()) ==> CanAppend()
      ensures TailRaw() <= old(TailRaw()) && (slices == [] || Room() == old(Room()))
    {
      hide Concat, SlicesOk, CutsOk, TailOk;
      ConcatDropBytes(parts, n);
      var left: nat := n;
      while left > 0 && slices != []
        invariant Valid() && (old(CanAppend()) ==> CanAppend())
        invariant DropBytes(parts, left) == DropBytes(old(parts), n)
        invariant TailRaw() <= old(TailRaw()) && (slices == [] || Room() == old(Room()))
        decreases |slices|, left
      {
        FrontShape();
        var front := slices[0];
        if front.Readable() > left {
          ReadFront(left);
          left := 0;
        } else {
          left := left - front.Readable();
          PopFront();
        }
      }
      FrontShape();
      ghost var was, rest := old(Contents()), Contents();
      var m := Min(n, |was|);
      assert got + rest == (old(got) + was[..m]) + rest;
      assert got == (got + rest)[..|got|];
    }

    lemma {:induction false} FrontShape()
      requires Valid()
      ensures |parts| == |slices|
      ensures slices != [] ==> slices[0].Ok() && slices[0].Readable() == |parts[0]|
    {}

    /** `read_from_fd`: the kernel has `offered` to give (nothing, if the read fails or there is no more);
        it fills the free part of the last slice and then a buffer on the side. */
    method ReadFromFd(offered: string) returns (n: nat)
      requires Valid() && CanAppend()
      modifies this`slices, this`parts, this`put, this`owned, this`Repr, TailRaw()
      ensures Valid() && CanAppend() && n <= |offered| && old(Room()) >= 0
      ensures n == Min(|offered|, EXTRA + if old(Room()) > 0 then old(Room()) else CHUNK)
      ensures Contents() == old(Contents()) + offered[..n] && put == old(put) + offered[..n]
      ensures offered != "" ==> n > 0
      ensures old(Room()) >= 0
      ensures n > 0 ==> Room() == RoomAfter(old(Room()), n)
      ensures n > 0 ==> (NonEmpty(parts) <==> Ready(old(parts), old(Room())))
      ensures n == 0 ==> (NonEmpty(parts) <==> NonEmpty(old(parts)) && old(Room()) > 0)
      ensures Ready(parts, Room()) <==> Ready(old(parts), old(Room()))
      ensures old(Repr) <= Repr && fresh(Repr - old(Repr)) && (TailRaw() <= old(TailRaw()) || fresh(TailRaw()))
    {
      hide Concat, Valid, Contents, NonEmpty, Ready, Room, RoomAfter;
      ghost var was, room0 := parts, Room();
      CheckNeedExpand();
      TailShape();
      var room := slices[|slices| - 1].Writable();
      n := if |offered| < room + EXTRA then |offered| else room + EXTRA;
      ghost var held := Repr;
      if n > 0 {
        TakeIn(offered[..n], room, was, room0);
        assert fresh(Repr - held) && fresh(held - old(Repr));
      } else {
        ExpandedIsReady(was, room0, parts, Room());
      }
    }

    /** What the kernel has written: as much as there is `room` for into the last slice, and the rest into a
        buffer on the side, from which it is appended. */
    method TakeIn(data: string, room: nat, ghost was: seq<string>, ghost room0: nat)
      requires Valid() && owned && slices != [] && data != "" && room == Room() && room > 0 && (room0 > 0 ==> was != [])
      requires parts == (if room0 > 0 then was else was + [""]) && room == if room0 > 0 then room0 else CHUNK
      modifies this`slices, this`parts, this`put, this`owned, this`Repr, TailRaw()
      ensures Valid() && CanAppend()
      ensures Contents() == old(Contents()) + data && put == old(put) + data && Room() == RoomAfter(room0, |data|)
      ensures NonEmpty(parts) <==> Ready(was, room0)
      ensures Ready(parts, Room()) <==> Ready(was, room0)
      ensures old(Repr) <= Repr && fresh(Repr - old(Repr)) && (TailRaw() <= old(TailRaw()) || fresh(TailRaw()))
    {
      hide Concat, Valid, Contents, NonEmpty, Ready, Room, RoomAfter;
      var direct := if |data| < room then |data| else room;
      Fill(data[..direct], was, room0);
      if |data| >= room {
        Append(data[direct..]);
        RoomAfterTwice(room0, direct, |data| - direct);
      }
      assert data == data[..direct] + data[direct..];
    }

    /** `write_to_fd`: the slices up to the first empty one are offered to the kernel, which takes at most
        `limit` bytes of them (none, if the write fails). */
    method WriteToFd(limit: nat) returns (sent: string)
      requires Valid()
      modifies this`slices, this`parts, this`got
      ensures Valid() && |sent| <= |old(Contents())|
      ensures sent == old(Contents())[..|sent|] && Contents() == old(Contents())[|sent|..]
      ensures |sent| == Min(limit, |Concat(Leading(old(parts)))|)
      ensures parts == DropBytes(old(parts), |sent|) && got == old(got) + sent
      ensures (old(CanAppend()) ==> CanAppend()) && TailRaw() <= old(TailRaw())
    {
      hide Concat, SlicesOk, CutsOk, TailOk, DropBytes;
      var gathered := Gather();
      LeadingIsPrefix(parts);
      var m := Min(limit, |gathered|);
      sent := gathered[..m];
      CommitConsume(m);
    }

    /** The bytes in the iovecs. */
    method Gather() returns (gathered: string)
      requires Valid()
      ensures gathered == Concat(Leading(parts))
    {
      hide TailOk, CutsOk;
      gathered := "";
      var i := 0;
      while i < |slices|
        invariant 0 <= i <= |slices| && NonEmpty(parts[..i]) && gathered == Concat(parts[..i])
      {
        if slices[i].Readable() == 0 {
          LeadingIs(parts, i);
          return;
        }
        BeforeStep(parts, i);
        gathered := gathered + slices[i].Bytes();
        i := i + 1;
      }
      LeadingIs(parts, i);
    }

    /** Part of a slice is about to be shared. */
    ghost method NoteCut(i: nat, piece: BufferSlice)
      requires Valid() && i < |slices| && piece.raw == slices[i].raw
      requires slices[i].start <= piece.start <= piece.end <= slices[i].end
      modifies this`cuts
      ensures Valid() && piece in cuts && cuts[piece] == piece.Bytes()
      ensures forall s :: s in old(cuts) ==> s in cuts && cuts[s] == old(cuts)[s]
      ensures piece.Bytes() == parts[i][piece.start - slices[i].start..piece.end - slices[i].start]
    {
      hide Concat;
      assert owned ==> Apart(slices[i], slices[|slices| - 1]);
      PieceBytes(slices[i], piece);
      cuts := cuts[piece := piece.Bytes()];
    }
  }

  lemma {:induction false} PieceBytes(slice: BufferSlice, piece: BufferSlice)
    requires slice.Ok() && piece.raw == slice.raw && slice.start <= piece.start <= piece.end <= slice.end
    ensures piece.Bytes() == slice.Bytes()[piece.start - slice.start..piece.end - slice.start]
  {
    SliceOfSlice(slice.raw[..], slice.start, slice.end, piece.start - slice.start, piece.end - slice.start);
  }

  /** Every slice of `buf` was cut from `chain`, and `buf` holds the bytes it had then. */
  ghost predicate CutFrom(buf: ChainBuffer, chain: ChainBuffer)
    reads buf`slices, buf`parts, chain`cuts
  {
    && |buf.parts| == |buf.slices|
    && forall i :: 0 <= i < |buf.slices| ==>
         buf.slices[i] in chain.cuts && chain.cuts[buf.slices[i]] == buf.parts[i]
  }

  datatype Use = Put(data: string) | Read(offered: string) | Consume(n: nat) | Write(limit: nat)

  method Apply(chain: ChainBuffer, use: Use)
    requires chain.Valid() && chain.CanAppend()
    modifies chain`slices, chain`parts, chain`put, chain`got, chain`owned, chain`Repr, chain.TailRaw()
    ensures chain.Valid() && chain.CanAppend() && old(chain.Repr) <= chain.Repr
    ensures fresh(chain.Repr - old(chain.Repr)) && (chain.TailRaw() <= old(chain.TailRaw()) || fresh(chain.TailRaw()))
    ensures old(chain.put) <= chain.put && old(chain.got) <= chain.got
  {
    hide ChainBuffer.Valid, ChainBuffer.CanAppend, Concat, DropBytes;
    match use {
      case Put(data) => chain.Append(data);
      case Read(offered) => var _ := chain.ReadFromFd(offered);
      case Consume(n) => chain.CommitConsume(n);
      case Write(limit) => var _ := chain.WriteToFd(limit);
    }
  }

  /** Bytes cut from a chain stay as they were, whatever is then done with the chain, although the chain
      goes on writing into the same arrays. */
  method CutsStayPut(chain: ChainBuffer, body: ChainBuffer, uses: seq<Use>)
    requires chain.Valid() && chain.CanAppend() && body != chain && body.SlicesOk() && CutFrom(body, chain)
    modifies chain, chain.Repr
    ensures chain.Valid() && CutFrom(body, chain) && body.SlicesOk() && body.Contents() == old(body.Contents())
    ensures old(body.Valid()) && body.cuts == map[] ==> body.Valid()
    ensures forall i :: 0 <= i < |body.slices| ==> body.slices[i].Bytes() == old(body.slices[i].Bytes())
    ensures old(chain.put) <= chain.put && old(chain.got) <= chain.got
  {
    hide Concat;
    var i := 0;
    while i < |uses|
      invariant chain.Valid() && chain.CanAppend() && chain.cuts == old(chain.cuts) && unchanged(body)
      invariant fresh(chain.Repr - old(chain.Repr))
      invariant old(chain.put) <= chain.put && old(chain.got) <= chain.got
    {
      TailIsHeld(chain);
      Apply(chain, uses[i]);
      i := i + 1;
    }
    CutBytes(chain, body);
  }

  lemma {:induction false} TailIsHeld(chain: ChainBuffer)
    requires chain.Valid()
    ensures chain.TailRaw() <= chain.Repr
  {}

  lemma {:induction false} CutBytes(chain: ChainBuffer, body: ChainBuffer)
    requires chain.Valid() && CutFrom(body, chain)
    ensures forall i :: 0 <= i < |body.slices| ==> body.slices[i].Ok() && body.slices[i].Bytes() == body.parts[i]
  {}
}
