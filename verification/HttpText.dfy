/** The text utilities of include/Rinx/Util/Util.h that the parser relies on: ASCII case mapping
    and the reading of decimal and hexadecimal sizes. */
module HttpText {
  import opened Wrappers

  const SIZE_LIMIT: nat := 0x1_0000_0000_0000_0000

  function LowerChar(c: char): char {
    if 'A' <= c <= 'Z' then (c as int + 32) as char else c
  }

  function UpperChar(c: char): char {
    if 'a' <= c <= 'z' then (c as int - 32) as char else c
  }

  function ToLower(s: string): (r: string)
    ensures |r| == |s|
    ensures forall i :: 0 <= i < |s| ==> r[i] == LowerChar(s[i])
  {
    seq(|s|, i requires 0 <= i < |s| => LowerChar(s[i]))
  }

  function ToUpper(s: string): (r: string)
    ensures |r| == |s|
    ensures forall i :: 0 <= i < |s| ==> r[i] == UpperChar(s[i])
  {
    seq(|s|, i requires 0 <= i < |s| => UpperChar(s[i]))
  }

  const CAPITALS := "ABCDEFGHIJKLMNOPQRSTUVWXYZ"
  const SMALLS := "abcdefghijklmnopqrstuvwxyz"

  /** Case mapping exchanges the capitals and the small letters of the alphabet and leaves all else alone. */
  lemma CaseOfLetters(c: char, i: nat)
    ensures i < 26 ==> LowerChar(CAPITALS[i]) == SMALLS[i] && UpperChar(SMALLS[i]) == CAPITALS[i]
    ensures (c !in CAPITALS ==> LowerChar(c) == c) && (c !in SMALLS ==> UpperChar(c) == c)
  {
    Alphabet(i);
    var k := c as int - 'A' as int;
    if 0 <= k < 26 {
      Alphabet(k);
    }
    var l := c as int - 'a' as int;
    if 0 <= l < 26 {
      Alphabet(l);
    }
  }

  lemma Alphabet(i: nat)
    ensures i < 26 ==> CAPITALS[i] == ('A' as int + i) as char && SMALLS[i] == ('a' as int + i) as char
  {
    if i < 13 {
      assert i in {0, 1, 2, 3, 4, 5, 6, 7, 8, 9, 10, 11, 12};
    } else if i < 26 {
      assert i in {13, 14, 15, 16, 17, 18, 19, 20, 21, 22, 23, 24, 25};
    }
  }

  /** The same text, whatever the case of its letters. */
  predicate Alike(a: string, b: string) {
    |a| == |b| && forall i :: 0 <= i < |a| ==> ToLower(a)[i] == ToLower(b)[i]
  }

  lemma AlikeCapitals(s: string, name: string)
    requires ToUpper(name) == name
    ensures Alike(s, name) <==> ToUpper(s) == name
  {
    if |s| == |name| {
      forall i | 0 <= i < |s|
        ensures ToLower(s)[i] == ToLower(name)[i] <==> ToUpper(s)[i] == name[i]
      {
        assert UpperChar(name[i]) == ToUpper(name)[i];
        SameLetter(s[i], name[i]);
      }
    }
  }

  lemma SameLetter(c: char, capital: char)
    requires UpperChar(capital) == capital
    ensures LowerChar(c) == LowerChar(capital) <==> UpperChar(c) == capital
  {}

  /** The value of a digit in bases up to 16; characters that are no digit have value 16. */
  function DigitValue(c: char): (v: nat)
    ensures v <= 16
  {
    if '0' <= c <= '9' then c as int - '0' as int
    else if 'a' <= c <= 'f' then c as int - 'a' as int + 10
    else if 'A' <= c <= 'F' then c as int - 'A' as int + 10
    else 16
  }

  predicate IsNumeral(s: string, base: nat)
    requires 2 <= base <= 16
  {
    s != [] && forall i :: 0 <= i < |s| ==> DigitValue(s[i]) < base
  }

  function NumeralValue(s: string, base: nat): nat {
    if s == [] then 0 else NumeralValue(s[..|s| - 1], base) * base + DigitValue(s[|s| - 1])
  }

  /** Texts `std::stoull` finds no number in: they do not start with a digit, nor with a blank or a sign that
      it would skip. It then throws invalid_argument. */
  predicate NoNumber(s: string, base: nat) {
    s == [] || (DigitValue(s[0]) >= base && s[0] !in "+- " && !('\t' <= s[0] <= '\r'))
  }

  /** What the C++ library decides and the source does not: the reading by `std::stoull` of texts that
      start like a number but are not plain numerals (signs, blanks, prefixes, trailing junk), and which one
      of several equal keys `unordered_multimap::find` reports. Every theorem holds for every such library. */
  datatype Library = Library(oddDecimal: string -> Option<nat>,
                             oddHex: string -> Option<nat>,
                             pickEqualKey: seq<string> -> nat)

  /** `str_to_size_t`: any exception becomes None. */
  function StrToSize(lib: Library, s: string): Option<nat> {
    if IsNumeral(s, 10) then
      if NumeralValue(s, 10) < SIZE_LIMIT then Some(NumeralValue(s, 10)) else None
    else if NoNumber(s, 10) then None
    else lib.oddDecimal(s)
  }

  /** `hex_str_to_size_t`: None stands for invalid_argument. For a value of 2^64 or more the source does not
      return at all, since it does not catch the out_of_range that `std::stoull` throws; the parameter's
      answer for such a text is not the code's. */
  function HexToSize(lib: Library, s: string): Option<nat> {
    if IsNumeral(s, 16) && NumeralValue(s, 16) < SIZE_LIMIT then Some(NumeralValue(s, 16))
    else if NoNumber(s, 16) then None
    else lib.oddHex(s)
  }

  function DigitChar(d: nat, capital: bool): char
    requires d < 16
  {
    if capital then "0123456789ABCDEF"[d] else "0123456789abcdef"[d]
  }

  /** A size in small or capital digits; `std::to_string` and `int_to_hex` print small ones. */
  function Numeral(n: nat, base: nat, capital: bool): string
    requires 2 <= base <= 16
  {
    if n < base then [DigitChar(n, capital)]
    else Numeral(n / base, base, capital) + [DigitChar(n % base, capital)]
  }

  lemma {:induction false} NumeralRoundTrip(n: nat, base: nat, capital: bool)
    requires 2 <= base <= 16
    ensures IsNumeral(Numeral(n, base, capital), base)
    ensures NumeralValue(Numeral(n, base, capital), base) == n
    decreases n
  {
    if n < base {
      DigitCharValue(n, capital);
      NumeralExtends([], DigitChar(n, capital), base);
      assert [] + [DigitChar(n, capital)] == [DigitChar(n, capital)];
    } else {
      var q, d := LastDigit(n, base, capital);
      NumeralRoundTrip(q, base, capital);
      DigitCharValue(d, capital);
      NumeralExtends(Numeral(q, base, capital), DigitChar(d, capital), base);
    }
  }

  /** A printed size is read as what it is; a decimal one of 2^64 or more is an error. */
  lemma SizeRoundTrip(lib: Library, n: nat, capital: bool)
    ensures StrToSize(lib, Numeral(n, 10, capital)) == if n < SIZE_LIMIT then Some(n) else None
    ensures n < SIZE_LIMIT ==> HexToSize(lib, Numeral(n, 16, capital)) == Some(n)
  {
    NumeralRoundTrip(n, 10, capital);
    NumeralRoundTrip(n, 16, capital);
  }

  /** Texts that are no size, whatever the library makes of odd ones. */
  lemma NoSize(lib: Library, c: char, rest: string)
    ensures StrToSize(lib, "") == None && HexToSize(lib, "") == None
    ensures 'A' <= c <= 'Z' || 'a' <= c <= 'z' || c in "#$%&/:;,._" ==> StrToSize(lib, [c] + rest) == None
    ensures 'G' <= c <= 'Z' || 'g' <= c <= 'z' || c in "#$%&/:;,._" ==> HexToSize(lib, [c] + rest) == None
  {
    assert ([c] + rest)[0] == c;
  }

  lemma LastDigit(n: nat, base: nat, capital: bool) returns (q: nat, d: nat)
    requires 2 <= base <= 16 && base <= n
    ensures d < base && q < n && q * base + d == n
    ensures Numeral(n, base, capital) == Numeral(q, base, capital) + [DigitChar(d, capital)]
  {
    q, d := n / base, n % base;
  }

  lemma DigitCharValue(d: nat, capital: bool)
    requires d < 16
    ensures DigitValue(DigitChar(d, capital)) == d
  {
    assert d in {0, 1, 2, 3, 4, 5, 6, 7, 8, 9, 10, 11, 12, 13, 14, 15};
  }

  lemma OnlyTheseAreDigits(c: char)
    ensures DigitValue(c) < 16 <==> c in "0123456789abcdefABCDEF"
  {
    if DigitValue(c) < 16 {
      DigitCharValue(DigitValue(c), 'A' <= c <= 'F');
      assert c == DigitChar(DigitValue(c), 'A' <= c <= 'F');
    }
  }

  lemma NumeralExtends(front: string, c: char, base: nat)
    ensures NumeralValue(front + [c], base) == NumeralValue(front, base) * base + DigitValue(c)
  {
    assert (front + [c])[..|front|] == front;
  }
}
