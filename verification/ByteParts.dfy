/** The bytes of a chain of slices, as the list of the slices' contents. */
module ByteParts {
  import opened Sequences

  /** Growing the last part grows the whole. */
  lemma ConcatGrow(parts: seq<string>, more: string)
    requires parts != []
    ensures Concat(parts[|parts| - 1 := parts[|parts| - 1] + more]) == Concat(parts) + more
  {
    var n := |parts| - 1;
    ConcatPush(parts[..n], parts[n] + more);
    ConcatPush(parts[..n], parts[n]);
    assert parts[n := parts[n] + more] == parts[..n] + [parts[n] + more];
    assert parts == parts[..n] + [parts[n]];
  }

  /** Cutting the first part in two. */
  lemma ConcatFront(parts: seq<string>, n: nat)
    requires parts != [] && n <= |parts[0]|
    ensures Concat(parts) == parts[0][..n] + Concat([parts[0][n..]] + parts[1..])
  {
    assert ([parts[0][n..]] + parts[1..])[1..] == parts[1..];
  }

  /** The number of bytes in the first `i` parts. */
  function Before(parts: seq<string>, i: nat): nat
    requires i <= |parts|
  {
    |Concat(parts[..i])|
  }

  lemma BeforeStep(parts: seq<string>, i: nat)
    requires i < |parts|
    ensures Before(parts, i + 1) == Before(parts, i) + |parts[i]|
    ensures Concat(parts[..i + 1]) == Concat(parts[..i]) + parts[i]
  {
    assert parts[..i + 1] == parts[..i] + [parts[i]];
    ConcatPush(parts[..i], parts[i]);
  }

  lemma BeforeAll(parts: seq<string>)
    ensures Before(parts, 0) == 0 && Before(parts, |parts|) == |Concat(parts)|
  {
    assert parts[..0] == [] && parts[..|parts|] == parts;
  }

  lemma {:induction false} BeforeUpTo(parts: seq<string>, i: nat, j: nat)
    requires i <= j <= |parts|
    ensures Before(parts, i) <= Before(parts, j)
    ensures i < j ==> Before(parts, i) + |parts[i]| <= Before(parts, j)
    decreases j - i
  {
    if i < j {
      BeforeStep(parts, i);
      BeforeUpTo(parts, i + 1, j);
    }
  }

  /** Where the bytes of part `i` lie in the whole. */
  lemma PartAt(parts: seq<string>, i: nat)
    requires i < |parts|
    ensures Before(parts, i) + |parts[i]| <= |Concat(parts)|
    ensures Concat(parts)[Before(parts, i)..Before(parts, i) + |parts[i]|] == parts[i]
  {
    ConcatAppend(parts[..i], parts[i..]);
    assert parts == parts[..i] + parts[i..];
    assert parts[i..][0] == parts[i];
  }

  /** What is left once `n` bytes are consumed: parts are dropped only while bytes remain to be consumed. */
  function DropBytes(parts: seq<string>, n: nat): seq<string> {
    if n == 0 || parts == [] then parts
    else if |parts[0]| > n then [parts[0][n..]] + parts[1..]
    else DropBytes(parts[1..], n - |parts[0]|)
  }

  lemma SliceOfSlice(s: string, a: nat, b: nat, i: nat, j: nat)
    requires a <= b <= |s| && i <= j <= b - a
    ensures s[a..b][i..j] == s[a + i..a + j]
  {
    var u, v := s[a..b][i..j], s[a + i..a + j];
    assert forall k :: 0 <= k < j - i ==> u[k] == v[k];
  }

  lemma TakeMore(s: string, a: nat, n: nat)
    requires a <= |s| && n <= |s| - a
    ensures s[..a] + s[a..][..n] == s[..a + n] && s[a..][n..] == s[a + n..]
  {}

  function Min(a: nat, b: nat): nat { if a < b then a else b }

  lemma {:induction false} ConcatDropBytes(parts: seq<string>, n: nat)
    ensures Concat(DropBytes(parts, n)) == Concat(parts)[Min(n, |Concat(parts)|)..]
  {
    if n == 0 || parts == [] {
    } else if |parts[0]| > n {
      ConcatAppend([parts[0][n..]], parts[1..]);
      ConcatOne(parts[0][n..]);
    } else {
      ConcatDropBytes(parts[1..], n - |parts[0]|);
    }
  }

  /** No part is empty. */
  predicate NonEmpty(parts: seq<string>) {
    forall i :: 0 <= i < |parts| ==> parts[i] != ""
  }

  lemma {:induction false} DropKeepsNonEmpty(parts: seq<string>, n: nat)
    requires NonEmpty(parts)
    ensures NonEmpty(DropBytes(parts, n))
    ensures n == |Concat(parts)| ==> DropBytes(parts, n) == []
  {
    if n == 0 || parts == [] {
      if parts != [] {
        assert Concat(parts) == parts[0] + Concat(parts[1..]);
      }
    } else if |parts[0]| > n {
    } else {
      DropKeepsNonEmpty(parts[1..], n - |parts[0]|);
    }
  }

  /** The parts before the first empty one. */
  function Leading(parts: seq<string>): (r: seq<string>)
    ensures r <= parts && NonEmpty(r)
    ensures |r| < |parts| ==> parts[|r|] == ""
  {
    if parts == [] || parts[0] == "" then [] else [parts[0]] + Leading(parts[1..])
  }

  lemma {:induction false} LeadingIs(parts: seq<string>, i: nat)
    requires i <= |parts| && NonEmpty(parts[..i]) && (i < |parts| ==> parts[i] == "")
    ensures Leading(parts) == parts[..i]
  {
    if i > 0 {
      assert parts[0] == parts[..i][0];
      assert parts[1..][..i - 1] == parts[..i][1..];
      LeadingIs(parts[1..], i - 1);
    }
  }

  lemma LeadingIsPrefix(parts: seq<string>)
    ensures Concat(Leading(parts)) <= Concat(parts)
    ensures NonEmpty(parts) ==> Leading(parts) == parts
  {
    var lead := Leading(parts);
    ConcatAppend(lead, parts[|lead|..]);
    assert parts == lead + parts[|lead|..];
  }

  /** Consuming only bytes that lie before the first empty part never removes that part. */
  lemma {:induction false} DropKeepsEmpty(parts: seq<string>, n: nat)
    requires !NonEmpty(parts) && n <= |Concat(Leading(parts))|
    ensures !NonEmpty(DropBytes(parts, n))
  {
    if n == 0 {
    } else {
      assert parts[0] != "";
      assert Leading(parts) == [parts[0]] + Leading(parts[1..]);
      assert Leading(parts)[1..] == Leading(parts[1..]);
      var i :| 0 <= i < |parts| && parts[i] == "";
      assert parts[1..][i - 1] == "";
      if |parts[0]| > n {
        assert DropBytes(parts, n)[i] == "";
      } else {
        DropKeepsEmpty(parts[1..], n - |parts[0]|);
      }
    }
  }

  // ----- empty parts that bytes still to come will fill

  /** Only the last part may be empty. */
  predicate Tight(parts: seq<string>) {
    forall i :: 0 <= i < |parts| - 1 ==> parts[i] != ""
  }

  /** The last part is empty. */
  predicate Gap(parts: seq<string>) {
    parts != [] && parts[|parts| - 1] == ""
  }

  /** No part is empty but the last, and that only if there is room in it. */
  predicate Ready(parts: seq<string>, room: int) {
    Tight(parts) && (Gap(parts) ==> room > 0)
  }

  /** Adding bytes to the last part, or to a new one if there is no room: no part is empty afterwards exactly
      if no part was that the bytes do not fill. */
  lemma GrownIsReady(parts: seq<string>, room: nat, more: string, grown: seq<string>, room': int)
    requires more != "" && (room > 0 ==> parts != [])
    requires grown == if room > 0 then parts[..|parts| - 1] + [parts[|parts| - 1] + more] else parts + [more]
    ensures NonEmpty(grown) <==> Ready(parts, room)
    ensures Ready(grown, room') <==> Ready(parts, room)
  {
    var n := |parts| - 1;
    assert grown[|grown| - 1] != "";
    assert forall i :: 0 <= i < n ==> grown[i] == parts[i];
    if room == 0 && parts != [] {
      assert grown[n] == parts[n];
    }
  }

  lemma {:induction false} DropKeepsTight(parts: seq<string>, n: nat)
    requires Tight(parts)
    ensures Tight(DropBytes(parts, n))
  {
    if n == 0 || parts == [] || |parts[0]| > n {
    } else {
      assert forall i :: 0 <= i < |parts| - 1 ==> parts[1..][i] == parts[i + 1];
      DropKeepsTight(parts[1..], n - |parts[0]|);
    }
  }

  /** The bytes of a chain lie before its gap, so consuming them leaves the gap. */
  lemma {:induction false} DropKeepsGap(parts: seq<string>, n: nat)
    requires n <= |Concat(parts)|
    ensures Gap(DropBytes(parts, n)) <==> Gap(parts)
    decreases |parts|
  {
    if n == 0 || parts == [] {
    } else if |parts[0]| > n {
      if |parts| == 1 {
        assert DropBytes(parts, n)[0] != "";
      } else {
        assert DropBytes(parts, n)[|parts| - 1] == parts[|parts| - 1];
      }
    } else {
      assert Concat(parts) == parts[0] + Concat(parts[1..]);
      DropKeepsGap(parts[1..], n - |parts[0]|);
      if |parts| > 1 {
        assert parts[1..][|parts| - 2] == parts[|parts| - 1];
      } else {
        assert parts[1..] == [] && n == |parts[0]|;
      }
    }
  }
}
