/** boost's escaped_list_separator (token_functions.hpp): fields separated by one kind of character, with
    an escape character and quoting. */
module EscapedList {

  /** The three roles a character can play; each role may be given to several characters. */
  datatype Roles = Roles(escape: string, separator: string, quote: string)

  datatype Error = CannotEndWithEscape | UnknownEscape

  /** The outcome of one call: a field, false, or an exception. */
  datatype Token = Field(text: string, rest: string, last: bool) | NoMore | Throws(error: Error)

  // ----- what one call computes

  predicate IsEscape(r: Roles, c: char) { c in r.escape }
  predicate IsSeparator(r: Roles, c: char) { c in r.separator }
  predicate IsQuote(r: Roles, c: char) { c in r.quote }

  datatype Escaped = Char(c: char) | Bad(error: Error)

  /** `do_escape` on the text after the escape character. */
  function DoEscape(r: Roles, after: string): Escaped {
    if after == "" then Bad(CannotEndWithEscape)
    else if after[0] == 'n' then Char('\n')
    else if IsQuote(r, after[0]) || IsSeparator(r, after[0]) || IsEscape(r, after[0]) then Char(after[0])
    else Bad(UnknownEscape)
  }

  /** The rest of a field, `tok` being what was read of it so far. */
  function Scan(r: Roles, rest: string, tok: string, inQuote: bool): Token
    decreases |rest|
  {
    if rest == "" then Field(tok, "", false)
    else
      var c := rest[0];
      if IsEscape(r, c) then
        match DoEscape(r, rest[1..])
        case Bad(e) => Throws(e)
        case Char(d) => Scan(r, rest[2..], tok + [d], inQuote)
      else if IsSeparator(r, c) then
        if inQuote then Scan(r, rest[1..], tok + [c], inQuote) else Field(tok, rest[1..], true)
      else if IsQuote(r, c) then Scan(r, rest[1..], tok, !inQuote)
      else Scan(r, rest[1..], tok + [c], inQuote)
  }

  lemma ScanEnd(r: Roles, tok: string, inQuote: bool)
    ensures Scan(r, "", tok, inQuote) == Field(tok, "", false)
  {}

  lemma ScanEscape(r: Roles, input: string, next: nat, tok: string, inQuote: bool)
    requires next < |input| && IsEscape(r, input[next])
    ensures match DoEscape(r, input[next + 1..])
      case Bad(e) => Scan(r, input[next..], tok, inQuote) == Throws(e)
      case Char(d) =>
        next + 2 <= |input| && Scan(r, input[next..], tok, inQuote) == Scan(r, input[next + 2..], tok + [d], inQuote)
  {
    hide IsSeparator, IsQuote;
    var rest := input[next..];
    assert rest[0] == input[next] && rest[1..] == input[next + 1..];
    if DoEscape(r, rest[1..]).Char? {
      assert rest[2..] == input[next + 2..];
    }
  }

  lemma ScanSeparator(r: Roles, input: string, next: nat, tok: string, inQuote: bool)
    requires next < |input| && !IsEscape(r, input[next]) && IsSeparator(r, input[next])
    ensures Scan(r, input[next..], tok, inQuote) ==
              if inQuote then Scan(r, input[next + 1..], tok + [input[next]], inQuote)
              else Field(tok, input[next + 1..], true)
  {
    hide IsEscape, IsSeparator, IsQuote, DoEscape;
    var rest := input[next..];
    assert rest[0] == input[next] && rest[1..] == input[next + 1..];
  }

  lemma ScanOther(r: Roles, input: string, next: nat, tok: string, inQuote: bool)
    requires next < |input| && !IsEscape(r, input[next]) && !IsSeparator(r, input[next])
    ensures Scan(r, input[next..], tok, inQuote) ==
              if IsQuote(r, input[next]) then Scan(r, input[next + 1..], tok, !inQuote)
              else Scan(r, input[next + 1..], tok + [input[next]], inQuote)
  {
    hide IsEscape, IsSeparator, IsQuote, DoEscape;
    var rest := input[next..];
    assert rest[0] == input[next] && rest[1..] == input[next + 1..];
  }

  /** One call on the unread text; `last` says that the text before it ended with a separator. */
  function Call(r: Roles, rest: string, last: bool): Token {
    if rest == "" then if last then Field("", "", false) else NoMore
    else Scan(r, rest, "", false)
  }

  lemma {:induction false} ScanShortens(r: Roles, rest: string, tok: string, inQuote: bool)
    requires rest != "" && Scan(r, rest, tok, inQuote).Field?
    ensures |Scan(r, rest, tok, inQuote).rest| < |rest|
    decreases |rest|
  {
    var c := rest[0];
    if IsEscape(r, c) {
      var e := DoEscape(r, rest[1..]);
      if e.Char? && |rest| > 2 { ScanShortens(r, rest[2..], tok + [e.c], inQuote); }
    } else if !(IsSeparator(r, c) && !inQuote) && |rest| > 1 {
      if IsSeparator(r, c) || !IsQuote(r, c) {
        ScanShortens(r, rest[1..], tok + [c], inQuote);
      } else {
        ScanShortens(r, rest[1..], tok, !inQuote);
      }
    }
  }

  /** A text tokenised until a call returns false. */
  datatype Tokens = Fields(fields: seq<string>) | Thrown(error: Error)

  function Tokenise(r: Roles, rest: string, last: bool): Tokens
    decreases |rest|, last
  {
    match Call(r, rest, last)
    case NoMore => Fields([])
    case Throws(e) => Thrown(e)
    case Field(text, rest', last') =>
      if rest != "" then ScanShortens(r, rest, "", false); TokeniseAfter(text, Tokenise(r, rest', last'))
      else TokeniseAfter(text, Tokenise(r, rest', last'))
  }

  function TokeniseAfter(text: string, t: Tokens): Tokens {
    if t.Fields? then Fields([text] + t.fields) else t
  }

  // ----- the object

  class EscapedListSeparator {
    const roles: Roles
    var last: bool

    constructor (escape: string, separator: string, quote: string)
      ensures roles == Roles(escape, separator, quote) && !last
    {
      roles := Roles(escape, separator, quote);
      last := false;
    }

    method Reset()
      modifies this
      ensures !last
    {
      last := false;
    }

    /** `do_escape`: `next` is at the escape character and ends at the character it stands for. */
    method Escape(input: string, next: nat, tok: string) returns (next': nat, tok': string, e: Escaped)
      requires next < |input|
      ensures e == DoEscape(roles, input[next + 1..])
      ensures next' == next + 1 && tok' == if e.Char? then tok + [e.c] else tok
    {
      next' := next + 1;
      tok' := tok;
      if next' == |input| {
        e := Bad(CannotEndWithEscape);
      } else if input[next'] == 'n' {
        e := Char('\n');
      } else if IsQuote(roles, input[next']) {
        e := Char(input[next']);
      } else if IsSeparator(roles, input[next']) {
        e := Char(input[next']);
      } else if IsEscape(roles, input[next']) {
        e := Char(input[next']);
      } else {
        e := Bad(UnknownEscape);
      }
      if e.Char? {
        tok' := tok' + [e.c];
      }
    }

    /** `operator()`: reads the next field of `input` from `start` on. */
    method Next(input: string, start: nat) returns (next: nat, tok: string, t: Token)
      requires start <= |input|
      modifies this
      ensures t == Call(roles, input[start..], old(last))
      ensures next <= |input|
      ensures t.Field? ==> tok == t.text && input[next..] == t.rest && last == t.last
    {
      hide Scan, IsEscape, IsSeparator, IsQuote, DoEscape;
      var inQuote := false;
      tok := "";
      next := start;
      if next == |input| {
        if last {
          last := false;
          t := Field(tok, "", false);
        } else {
          t := NoMore;
        }
        return;
      }
      last := false;
      while next != |input|
        invariant start <= next <= |input| && !last
        invariant Scan(roles, input[start..], "", false) == Scan(roles, input[next..], tok, inQuote)
        decreases |input| - next
      {
        var c := input[next];
        if IsEscape(roles, c) {
          ScanEscape(roles, input, next, tok, inQuote);
          var e;
          next, tok, e := Escape(input, next, tok);
          if e.Bad? {
            t := Throws(e.error);
            return;
          }
        } else if IsSeparator(roles, c) {
          ScanSeparator(roles, input, next, tok, inQuote);
          if !inQuote {
            next := next + 1;
            last := true;
            t := Field(tok, input[next..], last);
            return;
          } else {
            tok := tok + [c];
          }
        } else {
          ScanOther(roles, input, next, tok, inQuote);
          if IsQuote(roles, c) {
            inQuote := !inQuote;
          } else {
            tok := tok + [c];
          }
        }
        next := next + 1;
      }
      ScanEnd(roles, tok, inQuote);
      assert input[next..] == "";
      t := Field(tok, "", false);
    }
  }

  // ----- printing

  /** A field is written in parts: plain ones, and ones between quotes, where separators need no escape. */
  datatype Part = Part(text: string, quoted: bool)
  type Cell = seq<Part>

  function Text(cell: Cell): string {
    if cell == [] then "" else cell[0].text + Text(cell[1..])
  }

  /** Nothing is written. */
  predicate Blank(cell: Cell) {
    forall i :: 0 <= i < |cell| ==> cell[i] == Part("", false)
  }

  /** The characters a writer uses. */
  datatype Pen = Pen(escape: char, separator: char, quote: char)

  predicate PenFor(pen: Pen, r: Roles) {
    IsEscape(r, pen.escape) && IsSeparator(r, pen.separator) && IsQuote(r, pen.quote)
  }

  /** No character has two roles, and none is 'n', which after an escape stands for a newline. */
  predicate RolesOk(r: Roles) {
    && (forall c :: c in r.escape ==> c !in r.separator && c !in r.quote)
    && (forall c :: c in r.separator ==> c !in r.quote)
    && 'n' !in r.escape && 'n' !in r.separator && 'n' !in r.quote
  }

  function PrintChar(r: Roles, pen: Pen, c: char, quoted: bool): string {
    if c == '\n' then [pen.escape, 'n']
    else if IsEscape(r, c) || IsQuote(r, c) || (IsSeparator(r, c) && !quoted) then [pen.escape, c]
    else [c]
  }

  function PrintText(r: Roles, pen: Pen, text: string, quoted: bool): string {
    if text == "" then "" else PrintChar(r, pen, text[0], quoted) + PrintText(r, pen, text[1..], quoted)
  }

  function PrintPart(r: Roles, pen: Pen, part: Part): string {
    if part.quoted then [pen.quote] + PrintText(r, pen, part.text, true) + [pen.quote]
    else PrintText(r, pen, part.text, false)
  }

  function PrintCell(r: Roles, pen: Pen, cell: Cell): string {
    if cell == [] then "" else PrintPart(r, pen, cell[0]) + PrintCell(r, pen, cell[1..])
  }

  function Print(r: Roles, pen: Pen, cells: seq<Cell>): string {
    if cells == [] then ""
    else if |cells| == 1 then PrintCell(r, pen, cells[0])
    else PrintCell(r, pen, cells[0]) + [pen.separator] + Print(r, pen, cells[1..])
  }

  function Texts(cells: seq<Cell>): seq<string> {
    if cells == [] then [] else [Text(cells[0])] + Texts(cells[1..])
  }

  // ----- round trip

  lemma ScanChar(r: Roles, pen: Pen, c: char, tail: string, tok: string, quoted: bool)
    requires RolesOk(r) && PenFor(pen, r)
    ensures Scan(r, PrintChar(r, pen, c, quoted) + tail, tok, quoted) == Scan(r, tail, tok + [c], quoted)
  {
    var printed := PrintChar(r, pen, c, quoted);
    assert (printed + tail)[|printed|..] == tail;
    assert (printed + tail)[0] == printed[0];
    if |printed| == 2 {
      assert (printed + tail)[1..][0] == printed[1];
    }
  }

  lemma {:induction false} ScanText(r: Roles, pen: Pen, text: string, tail: string, tok: string, quoted: bool)
    requires RolesOk(r) && PenFor(pen, r)
    ensures Scan(r, PrintText(r, pen, text, quoted) + tail, tok, quoted) == Scan(r, tail, tok + text, quoted)
    decreases |text|
  {
    if text == "" {
      assert "" + tail == tail && tok + "" == tok;
    } else {
      var rest := PrintText(r, pen, text[1..], quoted) + tail;
      assert PrintText(r, pen, text, quoted) + tail == PrintChar(r, pen, text[0], quoted) + rest;
      ScanChar(r, pen, text[0], rest, tok, quoted);
      ScanText(r, pen, text[1..], tail, tok + [text[0]], quoted);
      assert tok + [text[0]] + text[1..] == tok + text;
    }
  }

  lemma ScanPart(r: Roles, pen: Pen, part: Part, tail: string, tok: string)
    requires RolesOk(r) && PenFor(pen, r)
    ensures Scan(r, PrintPart(r, pen, part) + tail, tok, false) == Scan(r, tail, tok + part.text, false)
  {
    if part.quoted {
      var body := PrintText(r, pen, part.text, true);
      var closed := [pen.quote] + tail;
      assert PrintPart(r, pen, part) + tail == [pen.quote] + (body + closed);
      ScanQuote(r, pen, body + closed, tok, false);
      ScanText(r, pen, part.text, closed, tok, true);
      ScanQuote(r, pen, tail, tok + part.text, true);
    } else {
      ScanText(r, pen, part.text, tail, tok, false);
    }
  }

  lemma {:induction false} ScanCell(r: Roles, pen: Pen, cell: Cell, tail: string, tok: string)
    requires RolesOk(r) && PenFor(pen, r)
    ensures Scan(r, PrintCell(r, pen, cell) + tail, tok, false) == Scan(r, tail, tok + Text(cell), false)
    decreases |cell|
  {
    hide Scan, PrintPart;
    if cell == [] {
      assert "" + tail == tail && tok + "" == tok;
    } else {
      var rest := PrintCell(r, pen, cell[1..]) + tail;
      assert PrintCell(r, pen, cell) + tail == PrintPart(r, pen, cell[0]) + rest;
      ScanPart(r, pen, cell[0], rest, tok);
      ScanCell(r, pen, cell[1..], tail, tok + cell[0].text);
      assert tok + cell[0].text + Text(cell[1..]) == tok + Text(cell);
    }
  }

  lemma ScanQuote(r: Roles, pen: Pen, tail: string, tok: string, inQuote: bool)
    requires RolesOk(r) && PenFor(pen, r)
    ensures Scan(r, [pen.quote] + tail, tok, inQuote) == Scan(r, tail, tok, !inQuote)
  {
    assert ([pen.quote] + tail)[1..] == tail;
  }

  lemma PrintTextNotEmpty(r: Roles, pen: Pen, text: string, quoted: bool)
    ensures PrintText(r, pen, text, quoted) == "" <==> text == ""
  {}

  lemma {:induction false} PrintCellNotEmpty(r: Roles, pen: Pen, cell: Cell)
    ensures PrintCell(r, pen, cell) == "" <==> Blank(cell)
    ensures Blank(cell) ==> Text(cell) == ""
  {
    if cell != [] {
      PrintTextNotEmpty(r, pen, cell[0].text, false);
      PrintCellNotEmpty(r, pen, cell[1..]);
      assert Blank(cell) ==> cell[0] == Part("", false);
      if Blank(cell[1..]) && cell[0] == Part("", false) {
        forall i | 0 <= i < |cell|
          ensures cell[i] == Part("", false)
        {
          assert i > 0 ==> cell[i] == cell[1..][i - 1];
        }
      }
    }
  }

  lemma {:induction false} TokenisePrinted(r: Roles, pen: Pen, cells: seq<Cell>, last: bool)
    requires RolesOk(r) && PenFor(pen, r) && cells != []
    requires last || |cells| > 1 || !Blank(cells[0])
    ensures Tokenise(r, Print(r, pen, cells), last) == Fields(Texts(cells))
    decreases |cells|
  {
    hide PrintCell, Text;
    var text := Print(r, pen, cells);
    var cell := cells[0];
    PrintCellNotEmpty(r, pen, cell);
    assert "" + Text(cell) == Text(cell);
    if |cells| == 1 {
      assert cells == [cell];
      assert Texts(cells) == [Text(cell)] + [];
      assert Tokenise(r, "", false) == Fields([]);
      ScanCell(r, pen, cell, "", "");
      assert text + "" == text;
    } else {
      var tail := [pen.separator] + Print(r, pen, cells[1..]);
      assert text == PrintCell(r, pen, cell) + tail;
      ScanCell(r, pen, cell, tail, "");
      assert tail[1..] == Print(r, pen, cells[1..]);
      TokenisePrinted(r, pen, cells[1..], true);
    }
  }

  /** Round trip, exactly: printing cells and tokenising the text until a call returns false gives back
      their texts, with leading, inner and trailing empty fields, if and only if the list is not a single
      field of which nothing is written. */
  lemma RoundTripExactly(r: Roles, pen: Pen, cells: seq<Cell>)
    requires RolesOk(r) && PenFor(pen, r)
    ensures Tokenise(r, Print(r, pen, cells), false) == Fields(Texts(cells)) <==> !(|cells| == 1 && Blank(cells[0]))
  {
    hide Blank;
    if cells == [] {
    } else if |cells| == 1 && Blank(cells[0]) {
      PrintCellNotEmpty(r, pen, cells[0]);
      assert Texts(cells) == [Text(cells[0])] + [];
    } else {
      TokenisePrinted(r, pen, cells, false);
    }
  }

  // ----- errors

  /** What may follow an escape character. */
  predicate MayFollow(r: Roles, c: char) {
    c == 'n' || c in r.escape || c in r.separator || c in r.quote
  }

  /** The first thing wrong with the escapes of a text, wherever its fields and quotes are. */
  function EscapeError(r: Roles, text: string): (e: seq<Error>)
    ensures |e| <= 1
  {
    if text == "" then []
    else if text[0] !in r.escape then EscapeError(r, text[1..])
    else if |text| == 1 then [CannotEndWithEscape]
    else if MayFollow(r, text[1]) then EscapeError(r, text[2..])
    else [UnknownEscape]
  }

  lemma {:induction false} ScanErrors(r: Roles, rest: string, tok: string, inQuote: bool)
    ensures match Scan(r, rest, tok, inQuote)
      case Throws(e) => EscapeError(r, rest) == [e]
      case Field(_, rest', _) => EscapeError(r, rest) == EscapeError(r, rest')
      case NoMore => false
    decreases |rest|
  {
    if rest != "" {
      var c := rest[0];
      if IsEscape(r, c) {
        var e := DoEscape(r, rest[1..]);
        if e.Char? {
          ScanErrors(r, rest[2..], tok + [e.c], inQuote);
        }
      } else if !(IsSeparator(r, c) && !inQuote) {
        if IsSeparator(r, c) || !IsQuote(r, c) {
          ScanErrors(r, rest[1..], tok + [c], inQuote);
        } else {
          ScanErrors(r, rest[1..], tok, !inQuote);
        }
      }
    }
  }

  /** Tokenising throws exactly when the text ends with an escape, or has one before a character that may not
      follow it, whichever comes first; quotes need not be closed. */
  lemma {:induction false} ThrowsExactly(r: Roles, text: string, last: bool)
    ensures var t := Tokenise(r, text, last);
      EscapeError(r, text) == if t.Thrown? then [t.error] else []
    decreases |text|, last
  {
    hide Scan, EscapeError;
    NoErrors(r);
    if text != "" {
      ScanErrors(r, text, "", false);
      var t := Scan(r, text, "", false);
      if t.Field? {
        ScanShortens(r, text, "", false);
        ThrowsExactly(r, t.rest, t.last);
      }
    } else if last {
      ThrowsExactly(r, "", false);
    }
  }

  lemma NoErrors(r: Roles)
    ensures EscapeError(r, "") == []
  {}
}
