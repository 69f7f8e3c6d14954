/** NanoLogLine (NanoLog.cpp): a log line kept as tagged bytes in a buffer on the stack that moves to the
    heap and doubles there, and the reader that turns the bytes back into arguments. A value of fixed
    size is represented by its object representation. */
module LogLine {

  newtype byte = x: int | 0 <= x < 256

  const STACK_SIZE: nat := 224
  const FIRST_HEAP_SIZE: nat := 512
  const HEADER_SIZE: nat := 37
  const TEXT_TAG: byte := 7

  /** sizeof of the types with the tags 0 to 6: char, uint32_t, uint64_t, int32_t, int64_t, double and the
      pointer to a string literal. */
  function SizeOf(tag: byte): (n: nat)
    ensures n > 0
  {
    if tag == 0 then 1 else if tag == 1 || tag == 3 then 4 else 8
  }

  /** The types a line can hold; the tag of a type is its place in the list. */
  datatype Supported = Char | UInt32 | UInt64 | Int32 | Int64 | Double | StringLiteral | CharPointer

  const SUPPORTED: seq<Supported> := [Char, UInt32, UInt64, Int32, Int64, Double, StringLiteral, CharPointer]

  function Width(t: Supported): nat {
    match t
    case Char => 1
    case UInt32 => 4
    case Int32 => 4
    case _ => 8
  }

  /** All types but the last are stored by value; the last is a string. */
  lemma TagsAndSizes(tag: byte)
    ensures SUPPORTED[TEXT_TAG as nat] == CharPointer && |SUPPORTED| == TEXT_TAG as nat + 1
    ensures tag < TEXT_TAG ==> SizeOf(tag) == Width(SUPPORTED[tag as nat])
  {
    assert tag < TEXT_TAG ==> tag in {0, 1, 2, 3, 4, 5, 6};
  }

  /** An argument: a value of fixed size, a string, or a null pointer. */
  datatype Arg = Value(tag: byte, bytes: seq<byte>) | Text(chars: seq<byte>) | Null

  /** What the type of an argument guarantees. */
  predicate WellTyped(a: Arg) {
    a.Value? ==> a.tag < TEXT_TAG && |a.bytes| == SizeOf(a.tag)
  }

  /** Strings are stored with a NUL behind them, so they must not contain one to be read back. */
  predicate ArgOk(a: Arg) {
    WellTyped(a) && (a.Text? ==> 0 !in a.chars)
  }

  /** Whether an argument leaves anything in the line. */
  predicate Shown(a: Arg) {
    a.Value? || (a.Text? && a.chars != [])
  }

  // ----- the encoding and its reader

  function Encoding(a: Arg): seq<byte> {
    if !Shown(a) then [] else if a.Value? then [a.tag] + a.bytes else [TEXT_TAG] + a.chars + [0]
  }

  function EncodeAll(args: seq<Arg>): seq<byte> {
    if args == [] then [] else EncodeAll(args[..|args| - 1]) + Encoding(args[|args| - 1])
  }

  function AllShown(args: seq<Arg>): seq<Arg> {
    if args == [] then []
    else AllShown(args[..|args| - 1]) + if Shown(args[|args| - 1]) then [args[|args| - 1]] else []
  }

  /** What the reader makes of the bytes between its cursor and the end: it stops exactly at the end, or at
      a tag it does not know, or it would read past the end. */
  datatype Decoded = Complete(args: seq<Arg>) | UnknownTag(args: seq<Arg>) | Overrun

  function Prepend(a: Arg, d: Decoded): Decoded {
    match d
    case Complete(args) => Complete([a] + args)
    case UnknownTag(args) => UnknownTag([a] + args)
    case Overrun => Overrun
  }

  /** The number of characters before the first NUL, or the whole length. */
  function TextLength(b: seq<byte>): (n: nat)
    ensures n <= |b| && (n < |b| ==> b[n] == 0) && forall i :: 0 <= i < n ==> b[i] != 0
  {
    if b == [] || b[0] == 0 then 0 else 1 + TextLength(b[1..])
  }

  function Decode(b: seq<byte>): Decoded
    decreases |b|
  {
    if b == [] then Complete([])
    else if b[0] < TEXT_TAG then
      var n := SizeOf(b[0]);
      if 1 + n > |b| then Overrun else Prepend(Value(b[0], b[1..1 + n]), Decode(b[1 + n..]))
    else if b[0] == TEXT_TAG then
      var n := TextLength(b[1..]);
      if 1 + n == |b| then Overrun else Prepend(Text(b[1..][..n]), Decode(b[1..][n + 1..]))
    else UnknownTag([])
  }

  lemma TextLengthOf(chars: seq<byte>, tail: seq<byte>)
    requires 0 !in chars
    ensures TextLength(chars + [0] + tail) == |chars|
  {
    var text := chars + [0] + tail;
    assert text[|chars|] == 0;
    assert forall i :: 0 <= i < |chars| ==> text[i] == chars[i] && chars[i] in chars;
  }

  lemma DecodeValue(b: seq<byte>)
    requires b != [] && b[0] < TEXT_TAG
    ensures var n := SizeOf(b[0]);
      if 1 + n > |b| then Decode(b) == Overrun
      else Decode(b) == Prepend(Value(b[0], b[1..1 + n]), Decode(b[1 + n..]))
  {
    hide TextLength, Prepend;
  }

  lemma DecodeTextual(b: seq<byte>)
    requires b != [] && b[0] >= TEXT_TAG
    ensures var n := TextLength(b[1..]);
      if b[0] > TEXT_TAG then Decode(b) == UnknownTag([])
      else if 1 + n == |b| then Decode(b) == Overrun
      else 1 + n < |b| && Decode(b) == Prepend(Text(b[1..][..n]), Decode(b[1..][n + 1..]))
  {
    hide TextLength, Prepend;
  }

  lemma DecodeOne(a: Arg, tail: seq<byte>)
    requires ArgOk(a)
    ensures Decode(Encoding(a) + tail) == if Shown(a) then Prepend(a, Decode(tail)) else Decode(tail)
  {
    hide Decode;
    if !Shown(a) {
      assert Encoding(a) + tail == tail;
    } else if a.Value? {
      DecodeOneValue(a.tag, a.bytes, tail);
    } else {
      DecodeOneText(a.chars, tail);
    }
  }

  lemma DecodeOneValue(tag: byte, bytes: seq<byte>, tail: seq<byte>)
    requires tag < TEXT_TAG && |bytes| == SizeOf(tag)
    ensures Decode([tag] + bytes + tail) == Prepend(Value(tag, bytes), Decode(tail))
  {
    hide Decode, Prepend, SizeOf;
    var b := [tag] + bytes + tail;
    DecodeValue(b);
    assert b[1..1 + |bytes|] == bytes && b[1 + |bytes|..] == tail;
  }

  lemma DecodeOneText(chars: seq<byte>, tail: seq<byte>)
    requires 0 !in chars
    ensures Decode([TEXT_TAG] + chars + [0] + tail) == Prepend(Text(chars), Decode(tail))
  {
    hide Decode, Prepend, TextLength;
    var b := [TEXT_TAG] + chars + [0] + tail;
    DecodeTextual(b);
    TextLengthOf(chars, tail);
    assert b[1..] == chars + [0] + tail;
    assert b[1..][..|chars|] == chars && b[1..][|chars| + 1..] == tail;
  }

  function PrependAll(args: seq<Arg>, d: Decoded): Decoded {
    if args == [] then d else PrependAll(args[..|args| - 1], Prepend(args[|args| - 1], d))
  }

  lemma {:induction false} DecodeAll(args: seq<Arg>, tail: seq<byte>)
    requires forall i :: 0 <= i < |args| ==> ArgOk(args[i])
    ensures Decode(EncodeAll(args) + tail) == PrependAll(AllShown(args), Decode(tail))
    decreases |args|
  {
    if args == [] {
      assert EncodeAll(args) + tail == tail;
    } else {
      var front, a := args[..|args| - 1], args[|args| - 1];
      assert EncodeAll(args) + tail == EncodeAll(front) + (Encoding(a) + tail);
      DecodeAll(front, Encoding(a) + tail);
      DecodeOne(a, tail);
      if Shown(a) {
        assert AllShown(args)[..|AllShown(front)|] == AllShown(front);
      } else {
        assert AllShown(args) == AllShown(front);
      }
    }
  }

  lemma {:induction false} PrependAllComplete(args: seq<Arg>, rest: seq<Arg>)
    ensures PrependAll(args, Complete(rest)) == Complete(args + rest)
    decreases |args|
  {
    if args == [] {
      assert args + rest == rest;
    } else {
      var front, a := args[..|args| - 1], args[|args| - 1];
      PrependAllComplete(front, [a] + rest);
      assert front + ([a] + rest) == args + rest;
    }
  }

  /** The reader gives back exactly the arguments that show, in order, and stops exactly at the end. */
  lemma RoundTrip(args: seq<Arg>)
    requires forall i :: 0 <= i < |args| ==> ArgOk(args[i])
    ensures Decode(EncodeAll(args)) == Complete(AllShown(args))
  {
    DecodeAll(args, []);
    assert EncodeAll(args) + [] == EncodeAll(args);
    PrependAllComplete(AllShown(args), []);
    assert AllShown(args) + [] == AllShown(args);
  }

  lemma AppendOne(args: seq<Arg>, a: Arg)
    ensures EncodeAll(args + [a]) == EncodeAll(args) + Encoding(a)
    ensures AllShown(args + [a]) == AllShown(args) + if Shown(a) then [a] else []
  {
    assert (args + [a])[..|args|] == args;
  }

  lemma {:induction false} Appended(a: seq<Arg>, b: seq<Arg>)
    ensures EncodeAll(a + b) == EncodeAll(a) + EncodeAll(b)
    ensures AllShown(a + b) == AllShown(a) + AllShown(b)
    decreases |b|
  {
    if b == [] {
      assert a + b == a;
    } else {
      Appended(a, b[..|b| - 1]);
      AppendedStep(a, b[..|b| - 1], b[|b| - 1]);
      assert b == b[..|b| - 1] + [b[|b| - 1]];
    }
  }

  lemma AppendedStep(a: seq<Arg>, b: seq<Arg>, last: Arg)
    requires EncodeAll(a + b) == EncodeAll(a) + EncodeAll(b) && AllShown(a + b) == AllShown(a) + AllShown(b)
    ensures EncodeAll(a + (b + [last])) == EncodeAll(a) + EncodeAll(b + [last])
    ensures AllShown(a + (b + [last])) == AllShown(a) + AllShown(b + [last])
  {
    hide EncodeAll, AllShown, Encoding;
    AppendOne(a + b, last);
    AppendOne(b, last);
    Associates(a, b, [last]);
    Associates(EncodeAll(a), EncodeAll(b), Encoding(last));
    Associates(AllShown(a), AllShown(b), if Shown(last) then [last] else []);
  }

  lemma Associates<T>(a: seq<T>, b: seq<T>, c: seq<T>)
    ensures a + b + c == a + (b + c)
  {}

  /** A string with a NUL in it is cut short there. */
  lemma TextIsCut(chars: seq<byte>, tail: seq<byte>)
    requires 0 in chars
    ensures var d := Decode(Encoding(Text(chars)) + tail); d.Complete? ==> d.args != [] && d.args[0] != Text(chars)
  {
    var b := Encoding(Text(chars)) + tail;
    assert b[1..] == chars + [0] + tail;
    var i :| 0 <= i < |chars| && chars[i] == 0;
    assert b[1..][i] == 0;
    var n := TextLength(b[1..]);
    assert n <= i;
    if Decode(b).Complete? {
      DecodeStep(b);
      hide Decode, TextLength;
      assert |b[1..][..n]| < |chars|;
    }
  }

  lemma {:induction false} PrependAllIncomplete(args: seq<Arg>, d: Decoded)
    requires !d.Complete?
    ensures !PrependAll(args, d).Complete?
    decreases |args|
  {
    if args != [] {
      PrependAllIncomplete(args[..|args| - 1], Prepend(args[|args| - 1], d));
    }
  }

  lemma NulBreaks(front: seq<Arg>, chars: seq<byte>, rest: seq<Arg>)
    requires (forall i :: 0 <= i < |front| ==> ArgOk(front[i])) && 0 in chars
    ensures Decode(EncodeAll(front + [Text(chars)] + rest)) != Complete(AllShown(front + [Text(chars)] + rest))
  {
    hide Decode, TextLength, PrependAll, EncodeAll, AllShown, Encoding;
    var bad := Text(chars);
    Appended(front + [bad], rest);
    AppendOne(front, bad);
    var tail, shown := EncodeAll(rest), AllShown(front);
    var d := Decode(Encoding(bad) + tail);
    assert EncodeAll(front) + Encoding(bad) + tail == EncodeAll(front) + (Encoding(bad) + tail);
    DecodeAll(front, Encoding(bad) + tail);
    TextIsCut(chars, tail);
    if d.Complete? {
      PrependAllComplete(shown, d.args);
      assert (shown + d.args)[|shown|] != (shown + [bad] + AllShown(rest))[|shown|];
    } else {
      PrependAllIncomplete(shown, d);
    }
  }

  predicate NulFree(args: seq<Arg>) {
    forall i :: 0 <= i < |args| && args[i].Text? ==> 0 !in args[i].chars
  }

  /** Exactly when a line reads back: if and only if no string in it contains a NUL. */
  lemma RoundTripExactly(args: seq<Arg>)
    requires forall i :: 0 <= i < |args| ==> WellTyped(args[i])
    ensures Decode(EncodeAll(args)) == Complete(AllShown(args)) <==> NulFree(args)
  {
    hide Decode, EncodeAll, AllShown, NulFree;
    if NulFree(args) {
      AllOk(args);
      RoundTrip(args);
    } else {
      var i := FirstBad(args);
      assert args == args[..i] + [Text(args[i].chars)] + args[i + 1..];
      NulBreaks(args[..i], args[i].chars, args[i + 1..]);
    }
  }

  lemma AllOk(args: seq<Arg>)
    requires NulFree(args) && forall i :: 0 <= i < |args| ==> WellTyped(args[i])
    ensures forall i :: 0 <= i < |args| ==> ArgOk(args[i])
  {}

  lemma FirstBad(args: seq<Arg>) returns (i: nat)
    requires forall i :: 0 <= i < |args| ==> WellTyped(args[i])
    requires !NulFree(args)
    ensures i < |args| && args[i].Text? && 0 in args[i].chars
    ensures forall k :: 0 <= k < i ==> ArgOk(args[k])
  {
    i := 0;
    while ArgOk(args[i])
      invariant i < |args| && forall k :: 0 <= k < i ==> ArgOk(args[k])
      decreases |args| - i
    {
      i := i + 1;
    }
  }

  /** How many bytes an argument takes in a line it is read from. */
  function SizeIn(a: Arg): nat {
    match a
    case Value(_, bytes) => 1 + |bytes|
    case Text(chars) => |chars| + 2
    case Null => 0
  }

  function SizeInAll(args: seq<Arg>): nat {
    if args == [] then 0 else SizeIn(args[0]) + SizeInAll(args[1..])
  }

  lemma {:induction false} DecodedSize(b: seq<byte>)
    requires Decode(b).Complete?
    ensures SizeInAll(Decode(b).args) == |b| && Null !in Decode(b).args
    decreases |b|
  {
    hide Decode, TextLength;
    if b == [] {
      NothingDecoded();
    } else {
      DecodeStep(b);
      if b[0] < TEXT_TAG {
        DecodedSize(b[1 + SizeOf(b[0])..]);
      } else {
        DecodedSize(b[1..][TextLength(b[1..]) + 1..]);
      }
    }
  }

  lemma NothingDecoded()
    ensures Decode([]) == Complete([])
  {}

  lemma {:induction false} EncodedSize(args: seq<Arg>)
    ensures |EncodeAll(args)| <= SizeInAll(args)
    ensures Text([]) in args ==> |EncodeAll(args)| < SizeInAll(args)
    decreases |args|
  {
    if args != [] {
      EncodedSize(args[1..]);
      Appended([args[0]], args[1..]);
      assert args == [args[0]] + args[1..];
      AppendOne([], args[0]);
      assert [] + [args[0]] == [args[0]] && EncodeAll([]) == [];
    }
  }

  lemma {:induction false} AllAreShown(args: seq<Arg>)
    requires forall i :: 0 <= i < |args| ==> Shown(args[i])
    ensures AllShown(args) == args
    decreases |args|
  {
    hide Shown;
    if args != [] {
      AllAreShown(args[..|args| - 1]);
    }
  }

  /** Exactly when every argument is read back: if and only if none is a null pointer, an empty string, or a
      string that contains a NUL. */
  lemma EveryArgumentReadBack(args: seq<Arg>)
    requires forall i :: 0 <= i < |args| ==> WellTyped(args[i])
    ensures Decode(EncodeAll(args)) == Complete(args) <==> Null !in args && Text([]) !in args && NulFree(args)
  {
    hide Decode, EncodeAll, AllShown, NulFree, SizeInAll;
    RoundTripExactly(args);
    if Null !in args && Text([]) !in args {
      forall i | 0 <= i < |args|
        ensures Shown(args[i])
      {
        assert args[i] in args;
      }
      AllAreShown(args);
    } else {
      EncodedSize(args);
      if Decode(EncodeAll(args)) == Complete(args) {
        DecodedSize(EncodeAll(args));
      }
    }
  }

  // ----- the object

  class NanoLogLine {
    var bytesUsed: nat
    var bufferSize: nat
    var heapBuffer: array?<byte>
    const stackBuffer: array<byte>

    /** History: the header and the arguments logged. */
    ghost const header: seq<byte>
    ghost var args: seq<Arg>

    /** The buffer in use. */
    function Current(): array<byte>
      reads this
    {
      if heapBuffer == null then stackBuffer else heapBuffer
    }

    /** The bytes in use. */
    ghost function Used(): seq<byte>
      requires bytesUsed <= Current().Length
      reads this, Current()
    {
      Current()[..bytesUsed]
    }

    ghost predicate Valid()
      reads this, Current()
    {
      && stackBuffer.Length == STACK_SIZE && bufferSize == Current().Length && bytesUsed <= bufferSize
      && |header| == HEADER_SIZE
      && (forall i :: 0 <= i < |args| ==> WellTyped(args[i]))
      && Used() == header + EncodeAll(args)
    }

    /** The header fields are the time stamp, the thread id, the file, the function, the line and the level. */
    constructor (timestamp: seq<byte>, threadId: seq<byte>, file: seq<byte>, function': seq<byte>, line: seq<byte>,
                 level: byte)
      requires |timestamp| == |threadId| == |file| == |function'| == 8 && |line| == 4
      ensures Valid() && fresh(Current()) && args == []
      ensures header == timestamp + threadId + file + function' + line + [level]
    {
      hide WellTyped;
      var stack := new byte[STACK_SIZE](_ => 0);
      stackBuffer, heapBuffer, bufferSize, bytesUsed := stack, null, STACK_SIZE, 0;
      args := [];
      header := timestamp + threadId + file + function' + line + [level];
      new;
      EncodeHeader(timestamp, threadId, file, function', line, level);
      assert header + EncodeAll(args) == header;
    }

    method EncodeHeader(timestamp: seq<byte>, threadId: seq<byte>, file: seq<byte>, function': seq<byte>,
                        line: seq<byte>, level: byte)
      requires |timestamp| == |threadId| == |file| == |function'| == 8 && |line| == 4
      requires bytesUsed == 0 && Current().Length >= HEADER_SIZE
      modifies this`bytesUsed, Current()
      ensures bytesUsed == HEADER_SIZE && Used() == timestamp + threadId + file + function' + line + [level]
    {
      assert Used() == [];
      hide Used;
      EncodeRaw(timestamp);
      EncodeRaw(threadId);
      EncodeRaw(file);
      EncodeRaw(function');
      EncodeRaw(line);
      EncodeRaw([level]);
    }

    /** The one-argument `encode`: stores an object representation at the end; the caller made room. */
    method EncodeRaw(bytes: seq<byte>)
      requires bytesUsed + |bytes| <= Current().Length
      modifies this`bytesUsed, Current()
      ensures bytesUsed == old(bytesUsed) + |bytes|
      ensures Used() == old(Used()) + bytes
    {
      var b := Current();
      forall i | 0 <= i < |bytes| {
        b[bytesUsed + i] := bytes[i];
      }
      bytesUsed := bytesUsed + |bytes|;
    }

    /** `resize_buffer_if_needed` */
    method ResizeBufferIfNeeded(additional: nat)
      requires Valid()
      modifies this`bufferSize, this`heapBuffer
      ensures Valid() && bytesUsed + additional <= bufferSize
      ensures Used() == old(Used())
      ensures Current() == old(Current()) || fresh(Current())
      ensures var required := bytesUsed + additional;
        bufferSize == if required <= old(bufferSize) then old(bufferSize)
                      else if old(heapBuffer) == null then Max(FIRST_HEAP_SIZE, required)
                      else Max(2 * old(bufferSize), required)
    {
      var required := bytesUsed + additional;
      if required <= bufferSize {
        return;
      }
      bufferSize := Max(if heapBuffer == null then FIRST_HEAP_SIZE else 2 * bufferSize, required);
      var b := Current();
      var bigger := new byte[bufferSize](_ => 0);
      forall i | 0 <= i < bytesUsed {
        bigger[i] := b[i];
      }
      heapBuffer := bigger;
      assert bigger[..bytesUsed] == b[..bytesUsed];
    }

    /** `operator<<` for every kind of argument. */
    method Log(a: Arg)
      requires Valid() && WellTyped(a)
      modifies this, Current()
      ensures Valid() && args == old(args) + [a]
      ensures Used() == old(Used()) + match a
                                      case Value(tag, bytes) => [tag] + bytes
                                      case Text(chars) => if chars == [] then [] else [TEXT_TAG] + chars + [0]
                                      case Null => []
      ensures Current() == old(Current()) || fresh(Current())
    {
      hide EncodeAll;
      match a {
        case Value(tag, bytes) =>
          Encode(bytes, tag);
        case Text(chars) =>
          EncodeCString(chars);
        case Null =>
      }
      args := args + [a];
      EncodeAllSnoc(old(args), a, header);
    }

    /** The two-argument `encode`: the tag, then the object representation. */
    method Encode(bytes: seq<byte>, tag: byte)
      requires Valid()
      modifies this`bytesUsed, this`bufferSize, this`heapBuffer, Current()
      ensures stackBuffer.Length == STACK_SIZE && bufferSize == Current().Length && bytesUsed <= bufferSize
      ensures Used() == old(Used()) + [tag] + bytes
      ensures Current() == old(Current()) || fresh(Current())
    {
      ResizeBufferIfNeeded(|bytes| + 1);
      EncodeRaw([tag]);
      EncodeRaw(bytes);
    }

    method EncodeCString(chars: seq<byte>)
      requires Valid()
      modifies this`bytesUsed, this`bufferSize, this`heapBuffer, Current()
      ensures stackBuffer.Length == STACK_SIZE && bufferSize == Current().Length && bytesUsed <= bufferSize
      ensures Used() == old(Used()) + if chars == [] then [] else [TEXT_TAG] + chars + [0]
      ensures Current() == old(Current()) || fresh(Current())
    {
      if |chars| == 0 {
        return;
      }
      ResizeBufferIfNeeded(1 + |chars| + 1);
      EncodeRaw([TEXT_TAG] + chars + [0]);
    }

    /** `stringify`: skips the header and reads the arguments back from the bytes in use. */
    method Stringify() returns (read: seq<Arg>)
      requires Valid() && forall i :: 0 <= i < |args| ==> ArgOk(args[i])
      ensures read == AllShown(args)
    {
      RoundTrip(args);
      assert Used()[HEADER_SIZE..] == EncodeAll(args);
      var b := Current();
      assert b[HEADER_SIZE..bytesUsed] == EncodeAll(args);
      read := StringifyRest(b[HEADER_SIZE..bytesUsed]);
    }
  }

  /** The private `stringify`; the cursor and the end are given as the bytes between them. It returns at the
      end and at a tag it does not know. */
  method StringifyRest(rest: seq<byte>) returns (read: seq<Arg>)
    requires !Decode(rest).Overrun?
    ensures read == Decode(rest).args
    decreases |rest|
  {
    if rest == [] {
      return [];
    }
    DecodeStep(rest);
    var tag := rest[0];
    if tag < TEXT_TAG {
      var n := SizeOf(tag);
      read := StringifyRest(rest[1 + n..]);
      read := [Value(tag, rest[1..1 + n])] + read;
    } else if tag > TEXT_TAG {
      read := [];
    } else {
      var chars, unread := DecodeText(rest[1..]);
      read := StringifyRest(unread);
      read := [Text(chars)] + read;
    }
  }

  /** `decode` of a string: the characters up to the NUL, and what follows it. */
  method DecodeText(text: seq<byte>) returns (chars: seq<byte>, unread: seq<byte>)
    requires TextLength(text) < |text|
    ensures var n := TextLength(text); chars == text[..n] && unread == text[n + 1..]
  {
    var i := 0;
    chars := [];
    while text[i] != 0
      invariant i <= TextLength(text) && chars == text[..i]
      decreases |text| - i
    {
      chars := chars + [text[i]];
      i := i + 1;
    }
    unread := text[i + 1..];
  }

  lemma DecodeStep(b: seq<byte>)
    requires b != [] && !Decode(b).Overrun?
    ensures b[0] > TEXT_TAG ==> Decode(b) == UnknownTag([])
    ensures b[0] < TEXT_TAG ==>
      var n := SizeOf(b[0]);
      && 1 + n <= |b| && !Decode(b[1 + n..]).Overrun?
      && Decode(b) == Prepend(Value(b[0], b[1..1 + n]), Decode(b[1 + n..]))
    ensures b[0] == TEXT_TAG ==>
      var n := TextLength(b[1..]);
      && 1 + n < |b| && !Decode(b[1..][n + 1..]).Overrun?
      && Decode(b) == Prepend(Text(b[1..][..n]), Decode(b[1..][n + 1..]))
  {
    hide Decode, TextLength;
    if b[0] < TEXT_TAG {
      DecodeValue(b);
    } else {
      DecodeTextual(b);
    }
  }

  lemma EncodeAllSnoc(args: seq<Arg>, a: Arg, header: seq<byte>)
    ensures header + EncodeAll(args + [a]) == header + EncodeAll(args) + Encoding(a)
    ensures header + EncodeAll(args) + [] == header + EncodeAll(args)
    ensures a.Value? ==> header + EncodeAll(args) + [a.tag] + a.bytes == header + EncodeAll(args + [a])
  {
    assert (args + [a])[..|args|] == args;
    assert header + (EncodeAll(args) + Encoding(a)) == header + EncodeAll(args) + Encoding(a);
    assert a.Value? ==> header + EncodeAll(args) + [a.tag] + a.bytes == header + EncodeAll(args) + ([a.tag] + a.bytes);
  }

  function Max(a: nat, b: nat): nat {
    if a < b then b else a
  }
}
