/** Buffer.h: iterators over the bytes of a chain, and the operations on chains that use them. */
module ReadIterator {
  import opened Sequences
  import opened ByteParts
  import opened ChainBuffer

  datatype Outcome = Moved | OutOfRange

  /** Sizes of slices and parts agree, as they do in any valid chain. */
  ghost predicate Sized(chain: ChainBuffer)
    reads chain`slices, chain`parts
  {
    && |chain.parts| == |chain.slices|
    && forall i :: 0 <= i < |chain.slices| ==>
         chain.slices[i].start <= chain.slices[i].end && chain.slices[i].end - chain.slices[i].start == |chain.parts[i]|
  }

  lemma {:induction false} ValidIsSized(chain: ChainBuffer)
    requires chain.Valid()
    ensures Sized(chain)
  {}

  class BufferReadIterator {
    const chain: ChainBuffer
    /** The slice the iterator is in; at the end, the number of slices. */
    var index: nat
    /** Offsets into the slice's array; a null `pCur` is `isNull`, and then all three are 0. */
    var pStart: int
    var pEnd: int
    var pCur: int
    var isNull: bool

    /** In a slice, at one of its bytes or, if it has none, at its start; or at the end. */
    ghost predicate Valid()
      reads this, chain`slices, chain`parts
    {
      && Sized(chain) && index <= |chain.slices| && isNull == (index == |chain.slices|)
      && (isNull ==> pStart == pEnd == pCur == 0)
      && (!isNull ==>
            && pStart == chain.slices[index].start && pEnd == chain.slices[index].end
            && pStart <= pCur <= pEnd && (pCur == pEnd ==> pStart == pEnd))
    }

    /** The number of bytes before the iterator. */
    ghost function Position(): int
      requires Valid()
      reads this, chain`slices, chain`parts
    {
      Before(chain.parts, index) + pCur - pStart
    }

    ghost predicate NoEmpty()
      reads chain`parts
    {
      NonEmpty(chain.parts)
    }

    /** The iterator the source makes from a slice position and a pointer. */
    constructor At(chain: ChainBuffer, index: nat)
      requires Sized(chain) && index <= |chain.slices|
      ensures Valid() && this.chain == chain && this.index == index && pCur == pStart
      ensures Position() == Before(chain.parts, index)
    {
      this.chain, this.index := chain, index;
      if index < |chain.slices| {
        pStart, pEnd, pCur, isNull :=
          chain.slices[index].start, chain.slices[index].end, chain.slices[index].start, false;
      } else {
        pStart, pEnd, pCur, isNull := 0, 0, 0, true;
      }
    }

    constructor Copy(other: BufferReadIterator)
      ensures chain == other.chain && index == other.index && isNull == other.isNull
      ensures pStart == other.pStart && pEnd == other.pEnd && pCur == other.pCur
      ensures other.Valid() ==> Valid() && Position() == other.Position()
    {
      chain, index, isNull := other.chain, other.index, other.isNull;
      pStart, pEnd, pCur := other.pStart, other.pEnd, other.pCur;
    }

    /** Go to the first byte of the next slice, or to the end. */
    method NextSlice()
      requires Sized(chain) && index < |chain.slices| && !isNull
      modifies this
      ensures Valid() && index == old(index) + 1 && pCur == pStart
      ensures Position() == Before(chain.parts, old(index)) + |chain.parts[old(index)]|
    {
      BeforeStep(chain.parts, index);
      index := index + 1;
      if index != |chain.slices| {
        pStart, pEnd := chain.slices[index].start, chain.slices[index].end;
        pCur := pStart;
      } else {
        pStart, pEnd, pCur, isNull := 0, 0, 0, true;
      }
    }

    /** `*`: the byte the iterator stands on. */
    method Deref() returns (c: char)
      requires chain.Valid() && Valid() && !isNull && pCur < pEnd
      ensures 0 <= Position() < |chain.Contents()| && c == chain.Contents()[Position()]
    {
      hide Concat, Before;
      PositionBounds();
      PartAt(chain.parts, index);
      chain.SliceShape(index);
      c := chain.slices[index].raw[pCur];
      assert c == chain.slices[index].Bytes()[pCur - pStart];
    }

    /** `++`, anywhere but in an empty slice. */
    method Increment() returns (outcome: Outcome)
      requires Valid() && (isNull || pCur < pEnd)
      modifies this
      ensures outcome == (if old(Position()) < |chain.Contents()| then Moved else OutOfRange)
      ensures Valid() && Position() == old(Position()) + (if outcome == Moved then 1 else 0)
      ensures old(index) <= index <= old(index) + 1
    {
      hide Concat;
      PositionBounds();
      if isNull {
        return OutOfRange;
      }
      pCur := pCur + 1;
      if pCur == pEnd {
        NextSlice();
      }
      outcome := Moved;
    }

    /** Positions lie between 0 and the number of bytes; only the end is past the last byte. */
    lemma {:induction false} PositionBounds()
      requires Valid()
      ensures 0 <= Position() <= |chain.Contents()|
      ensures isNull ==> Position() == |chain.Contents()|
      ensures !isNull && pCur < pEnd ==> Position() < |chain.Contents()|
      ensures !isNull && pCur == pEnd && Tight(chain.parts) ==> Position() == |chain.Contents()|
    {
      BeforeAll(chain.parts);
      BeforeUpTo(chain.parts, index, |chain.parts|);
      if !isNull {
        BeforeStep(chain.parts, index);
      }
    }

    /** `--`, unless it would have to step back into an empty slice. */
    method Decrement() returns (outcome: Outcome)
      requires Valid() && (pCur > pStart || index == 0 || chain.parts[index - 1] != "")
      modifies this
      ensures outcome == (if old(Position()) > 0 then Moved else OutOfRange)
      ensures Valid() && Position() == old(Position()) - (if outcome == Moved then 1 else 0)
    {
      hide Concat;
      if pCur == pStart {
        if index != 0 {
          BeforeStep(chain.parts, index - 1);
          index := index - 1;
          pStart, pEnd, isNull := chain.slices[index].start, chain.slices[index].end, false;
          pCur := pEnd - 1;
        } else {
          BeforeAll(chain.parts);
          return OutOfRange;
        }
      } else {
        pCur := pCur - 1;
      }
      outcome := Moved;
    }

    /** Forward `+=`. If the last slice is empty it is relied on only for bytes that are there, and if others
        are, only to step out of the current slice. */
    method AddAssign(step: nat) returns (outcome: Outcome)
      requires Valid()
      modifies this
      ensures NoEmpty() ==> outcome == if old(Position()) + step <= |chain.Contents()| then Moved else OutOfRange
      ensures NoEmpty() && outcome == Moved ==> Valid() && Position() == old(Position()) + step
      ensures Tight(chain.parts) && old(Position()) + step <= |chain.Contents()| ==>
                outcome == Moved && Valid() && Position() == old(Position()) + step
      ensures !old(isNull) && step == (if old(pEnd - pCur) > 1 then old(pEnd - pCur) else 1) ==>
                outcome == Moved && Valid() && index == old(index) + 1 && pCur == pStart
    {
      hide Concat, Before;
      PositionBounds();
      if isNull && step > 0 {
        return OutOfRange;
      }
      var offset := step + pCur - pStart;
      if 0 <= offset < pEnd - pStart {
        pCur := pCur + step;
        PositionBounds();
      } else if step > 0 {
        outcome := Hop(step);
        return;
      }
      outcome := Moved;
    }

    /** The loop of `+=`: slice after slice. */
    method Hop(step: nat) returns (outcome: Outcome)
      requires Valid() && !isNull && step > 0 && step + pCur >= pEnd
      modifies this
      ensures NoEmpty() ==> outcome == if old(Position()) + step <= |chain.Contents()| then Moved else OutOfRange
      ensures NoEmpty() && outcome == Moved ==> Valid() && Position() == old(Position()) + step
      ensures Tight(chain.parts) && old(Position()) + step <= |chain.Contents()| ==>
                outcome == Moved && Valid() && Position() == old(Position()) + step
      ensures step == (if old(pEnd - pCur) > 1 then old(pEnd - pCur) else 1) ==>
                outcome == Moved && Valid() && index == old(index) + 1 && pCur == pStart
    {
      hide Concat, Before;
      var left: nat := step;
      outcome := Moved;
      while left != 0
        invariant Valid() && (left != 0 ==> !isNull)
        invariant NoEmpty() || (Tight(chain.parts) && old(Position()) + step <= |chain.Contents()|) ==>
                    Position() + left == old(Position()) + step
        invariant if left == step then index == old(index) && pCur == old(pCur) && pEnd == old(pEnd)
                  else step == (if old(pEnd - pCur) > 1 then old(pEnd - pCur) else 1) ==>
                         left == 0 && index == old(index) + 1 && pCur == pStart
        decreases left
      {
        PositionBounds();
        var room := if pEnd - pCur - 1 > 0 then pEnd - pCur - 1 else 0;
        if left <= room {
          pCur := pCur + left;
          left := 0;
        } else {
          left := left - room;
          if index + 1 == |chain.slices| && left > 1 {
            BeforeStep(chain.parts, index);
            BeforeAll(chain.parts);
            index := index + 1;
            return OutOfRange;
          }
          NextSlice();
          left := left - 1;
        }
      }
      PositionBounds();
    }
  }

  /** In a chain without empty slices a position is one place. */
  lemma {:induction false} SamePlace(a: BufferReadIterator, b: BufferReadIterator)
    requires a.Valid() && b.Valid() && a.chain == b.chain && NonEmpty(a.chain.parts)
    requires a.Position() == b.Position()
    ensures a.index == b.index && a.pCur == b.pCur && a.isNull == b.isNull
  {
    hide Concat, Before;
    BeforeUpTo(a.chain.parts, a.index, if a.index < b.index then b.index else a.index);
    BeforeUpTo(a.chain.parts, b.index, if b.index < a.index then a.index else b.index);
  }

  /** `--` undoes `++`. */
  method IncrementThenDecrement(it: BufferReadIterator) returns (outcome: Outcome)
    requires it.Valid() && it.NoEmpty() && !it.isNull
    modifies it
    ensures outcome == Moved && it.Valid() && it.index == old(it.index) && it.pCur == old(it.pCur) && !it.isNull
  {
    var before := new BufferReadIterator.Copy(it);
    before.PositionBounds();
    outcome := it.Increment();
    outcome := it.Decrement();
    SamePlace(it, before);
  }

  /** `a - b`. */
  method Difference(a: BufferReadIterator, b: BufferReadIterator) returns (distance: int)
    requires a.Valid() && b.Valid() && a.chain == b.chain
    ensures distance == a.Position() - b.Position()
  {
    hide Concat, Before;
    if a.index == b.index {
      return a.pCur - b.pCur;
    }
    var tmp := new BufferReadIterator.Copy(a);
    var other := new BufferReadIterator.Copy(b);
    var flag := false;
    if tmp.index < other.index {
      tmp, other := other, tmp;
      flag := true;
    }
    distance := Distance(tmp, other);
    if flag {
      distance := -distance;
    }
  }

  /** The loop of `-`: `other` catches up with `tmp`. */
  method Distance(tmp: BufferReadIterator, other: BufferReadIterator) returns (distance: int)
    requires tmp.Valid() && other.Valid() && tmp.chain == other.chain && other != tmp && other.index < tmp.index
    modifies other
    ensures distance == tmp.Position() - old(other.Position())
  {
    hide Concat, Before;
    distance := -(other.pCur - other.pStart);
    while other.index != tmp.index
      invariant other.Valid() && tmp.Valid() && other.index <= tmp.index
      invariant distance == Before(other.chain.parts, other.index) - old(other.Position())
      invariant other.index > old(other.index) ==> other.pCur == other.pStart
      decreases tmp.index - other.index
    {
      BeforeStep(other.chain.parts, other.index);
      distance := distance + (other.pEnd - other.pStart);
      var advance := other.pEnd - other.pCur;
      var _ := other.AddAssign(if advance == 0 then 1 else advance);
    }
    distance := distance + (tmp.pCur - other.pCur);
  }

  /** Exact even if some slices are empty. */
  method ReadableSize(chain: ChainBuffer) returns (size: int)
    requires chain.Valid()
    ensures size == |chain.Contents()|
  {
    ValidIsSized(chain);
    BeforeAll(chain.parts);
    var begin := new BufferReadIterator.At(chain, 0);
    var end := new BufferReadIterator.At(chain, |chain.slices|);
    size := Difference(end, begin);
  }

  /** One turn of `slice`: the rest of the current slice, or as much of it as is wanted. */
  method CutOne(chain: ChainBuffer, cur: BufferReadIterator, length: nat, buf: ChainBuffer) returns (sliceLen: nat)
    requires chain.Valid() && Tight(chain.parts) && cur.chain == chain && cur.Valid()
    requires buf.Valid() && buf != chain && CutFrom(buf, chain)
    requires 0 < length && cur.Position() + length <= |chain.Contents()|
    modifies chain`cuts, cur, buf
    ensures 0 < sliceLen <= length
    ensures chain.Valid() && cur.Valid() && buf.Valid() && CutFrom(buf, chain)
    ensures old(cur.Position()) >= 0 && cur.Position() == old(cur.Position()) + sliceLen <= |chain.Contents()|
    ensures buf.Contents() == old(buf.Contents()) + chain.Contents()[old(cur.Position())..cur.Position()]
    ensures buf.cuts == old(buf.cuts)
    ensures forall s :: s in old(chain.cuts) ==> s in chain.cuts && chain.cuts[s] == old(chain.cuts)[s]
  {
    hide Concat, Before, ChainBuffer.Valid, BufferSlice.Bytes;
    cur.PositionBounds();
    ValidIsSized(chain);
    chain.SliceShape(cur.index);
    sliceLen := if cur.pEnd - cur.pCur < length then cur.pEnd - cur.pCur else length;
    var piece := BufferSlice(chain.slices[cur.index].raw, cur.pCur, cur.pCur + sliceLen);
    PartAt(chain.parts, cur.index);
    chain.NoteCut(cur.index, piece);
    ghost var at, off := Before(chain.parts, cur.index), cur.pCur - cur.pStart;
    SliceOfSlice(chain.Contents(), at, at + |chain.parts[cur.index]|, off, off + sliceLen);
    buf.AppendSlice(piece);
    var _ := cur.AddAssign(sliceLen);
  }

  lemma {:induction false} NothingCut(buf: ChainBuffer, chain: ChainBuffer)
    requires buf.slices == [] && buf.parts == []
    ensures CutFrom(buf, chain) && buf.Contents() == ""
  {}

  /** `slice`: the bytes from `begin` to `end`, without copying them. */
  method Slice(chain: ChainBuffer, begin: BufferReadIterator, end: BufferReadIterator) returns (buf: ChainBuffer)
    requires chain.Valid() && Tight(chain.parts) && begin.chain == chain == end.chain
    requires begin.Valid() && end.Valid() && begin.Position() <= end.Position()
    modifies chain`cuts
    ensures fresh(buf) && buf.Valid() && chain.Valid() && CutFrom(buf, chain) && buf.cuts == map[]
    ensures begin.Valid() && end.Valid() && begin.Position() <= end.Position() <= |chain.Contents()|
    ensures buf.Contents() == chain.Contents()[begin.Position()..end.Position()]
    ensures forall s :: s in old(chain.cuts) ==> s in chain.cuts && chain.cuts[s] == old(chain.cuts)[s]
  {
    hide Concat, Before, ChainBuffer.Valid, ChainBuffer.Contents, CutFrom, BufferReadIterator.Valid;
    hide BufferReadIterator.Position;
    begin.PositionBounds();
    end.PositionBounds();
    buf := new ChainBuffer();
    NothingCut(buf, chain);
    var length := Difference(end, begin);
    var cur := new BufferReadIterator.Copy(begin);
    ghost var from := begin.Position();
    while length != 0
      invariant chain.Valid() && buf.Valid() && cur.Valid() && cur != begin && cur != end && CutFrom(buf, chain)
      invariant buf.cuts == map[]
      invariant begin.Valid() && end.Valid()
      invariant length >= 0 && cur.Position() + length == end.Position() && from == begin.Position() <= cur.Position()
      invariant end.Position() <= |chain.Contents()|
      invariant buf.Contents() == chain.Contents()[from..cur.Position()]
      invariant forall s :: s in old(chain.cuts) ==> s in chain.cuts && chain.cuts[s] == old(chain.cuts)[s]
      decreases length
    {
      var sliceLen := CutOne(chain, cur, length, buf);
      length := length - sliceLen;
    }
  }

  /** The OnPartofBody callback: the bytes from `begin` to `end` of the input are added to the body without
      copying them, and the body still consists of what was cut from the input. */
  method OnPartofBody(chain: ChainBuffer, begin: BufferReadIterator, end: BufferReadIterator, body: ChainBuffer)
    requires chain.Valid() && Tight(chain.parts) && begin.chain == chain == end.chain
    requires begin.Valid() && end.Valid() && begin.Position() <= end.Position()
    requires body != chain && body.Valid() && CutFrom(body, chain)
    modifies chain`cuts, body
    ensures chain.Valid() && body.Valid() && CutFrom(body, chain) && body.cuts == old(body.cuts)
    ensures begin.Valid() && end.Valid() && 0 <= begin.Position() <= end.Position() <= |chain.Contents()|
    ensures body.Contents() == old(body.Contents()) + chain.Contents()[begin.Position()..end.Position()]
    ensures forall s :: s in old(chain.cuts) ==> s in chain.cuts && chain.cuts[s] == old(chain.cuts)[s]
  {
    hide Concat, Before, ChainBuffer.Valid, ChainBuffer.TakesOver;
    begin.PositionBounds();
    var bodyData := Slice(chain, begin, end);
    body.AppendChain(bodyData);
  }

  /** Going over a chain with `*` and `++` from its beginning, as `parse` does, up to the first place where
      there is no byte. That place is the end if and only if no slice is empty; if it is not, the source
      goes on there, outside the bytes of the chain. */
  method Walk(chain: ChainBuffer) returns (bytes: string, atEnd: bool)
    requires chain.Valid()
    ensures bytes <= chain.Contents() && (atEnd <==> NonEmpty(chain.parts))
    ensures Tight(chain.parts) ==> bytes == chain.Contents()
  {
    hide Concat, Before, ChainBuffer.Valid;
    ValidIsSized(chain);
    BeforeAll(chain.parts);
    var it := new BufferReadIterator.At(chain, 0);
    bytes := "";
    while !it.isNull && it.pCur < it.pEnd
      invariant chain.Valid() && it.Valid() && it.chain == chain
      invariant 0 <= it.Position() <= |chain.Contents()| && bytes == chain.Contents()[..it.Position()]
      invariant forall i :: 0 <= i < it.index ==> chain.parts[i] != ""
      decreases |chain.Contents()| - it.Position()
    {
      it.PositionBounds();
      var c := it.Deref();
      var _ := it.Increment();
      it.PositionBounds();
      bytes := bytes + [c];
    }
    it.PositionBounds();
    atEnd := it.isNull;
    if !atEnd {
      assert chain.parts[it.index] == "";
      BeforeStep(chain.parts, it.index);
      if Tight(chain.parts) {
        assert it.index == |chain.parts| - 1;
      }
    }
  }
}
