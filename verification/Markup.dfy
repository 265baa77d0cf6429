/** Reading one piece of markup.  A document is read up to a terminator that stands in place of its
    last character, which is passed along as `last`. */
module Markup {
  import opened Chars
  import opened Decoding
  import opened Escaping
  import opened XmlTree

  const WS := " \t\r\n"
  const NAME_END := " \t\r\n/>"
  const ATTR_END := " \t\r\n=/>"
  const CLOSE_END := " \t\r\n>"

  /** The number of leading characters that are not in `stop`. */
  function Cspn(s: string, stop: string): (n: nat)
    ensures n <= |s| && (n < |s| ==> s[n] in stop)
    ensures forall i | 0 <= i < n :: s[i] !in stop
  {
    if s == "" || s[0] in stop then 0 else 1 + Cspn(s[1..], stop)
  }

  /** The number of leading characters that are in `accept`. */
  function Spn(s: string, accept: string): (n: nat)
    ensures n <= |s| && (n < |s| ==> s[n] !in accept)
  {
    if s == "" || s[0] !in accept then 0 else 1 + Spn(s[1..], accept)
  }

  /** Where `pat` is first found, or the length of `s`. */
  function StrStr(s: string, pat: string): (n: nat)
    requires pat != ""
    ensures n <= |s| && (n < |s| ==> pat <= s[n..])
  {
    if s == "" || pat <= s then 0 else 1 + StrStr(s[1..], pat)
  }

  datatype Error =
    | RootMissing
    | OutsideRoot
    | MissingQuote
    | MissingGt
    | UnexpectedClose(name: string)
    | UnclosedComment
    | UnclosedSection
    | UnclosedInstruction
    | UnclosedDoctype
    | UnexpectedLt
    | UnclosedTag(name: string)

  /** `Data` is decoded character content and `Section` that of a CDATA section; comments and
      processing instructions are skipped.  An error inside an opening tag is marked, for another
      error may come before it. */
  datatype Token =
    | Open(name: string, attrs: seq<Attr>, selfClosing: bool)
    | Close(name: string)
    | Data(text: string)
    | Section(text: string)
    | Skip
    | Bad(error: Error, inTag: bool)
    | Unmodelled

  /** A token, and what is left from its last character on. */
  datatype Scan = Scan(token: Token, rest: string)

  predicate IsTagStart(s: string) {
    s != "" && ('a' <= s[0] <= 'z' || 'A' <= s[0] <= 'Z' || s[0] == '_' || s[0] == ':' || s[0] as int >= 0x80)
  }

  // --------------------------------------------------------------------------------- opening tags

  datatype AttrScan = AttrScan(attr: Attr, rest: string) | NoQuote

  function SkipSpace(s: string): (r: string)
    ensures |r| <= |s|
  {
    s[SpaceSpan(s)..]
  }

  ghost function ReadAttr(s: string): (r: AttrScan)
    ensures s != "" && s[0] !in "/>" && r.AttrScan? ==> |r.rest| < |s|
  {
    var k := Cspn(s, ATTR_END);
    if k < |s| && (s[k] == '=' || IsSpace(s[k])) then ReadValue(s[..k], s[k + 1..])
    else AttrScan(Attr(s[..k], ""), SkipSpace(s[k..]))
  }

  /** The value of an attribute, from behind the first character after the name. */
  ghost function ReadValue(name: string, s: string): (r: AttrScan)
    ensures r.AttrScan? ==> |r.rest| <= |s|
  {
    var t := s[Spn(s, " \t\r\n=")..];
    if t != "" && (t[0] == '"' || t[0] == '\'') then
      var m := Cspn(t[1..], [t[0]]);
      if m == |t| - 1 then NoQuote
      else AttrScan(Attr(name, Decoded(t[1..][..m], Attribute)), SkipSpace(t[m + 2..]))
    else AttrScan(Attr(name, ""), SkipSpace(t))
  }

  datatype AttrsScan = AttrsScan(attrs: seq<Attr>, rest: string) | NoQuotes {
    function Behind(before: seq<Attr>): AttrsScan {
      if AttrsScan? then AttrsScan(before + attrs, rest) else NoQuotes
    }
  }

  ghost function ReadAttrs(s: string): (r: AttrsScan)
    ensures r.AttrsScan? ==> |r.rest| <= |s|
    decreases |s|
  {
    if s == "" || s[0] in "/>" then AttrsScan([], s)
    else
      match ReadAttr(s)
      case NoQuote => NoQuotes
      case AttrScan(attr, rest) => ReadAttrs(rest).Behind([attr])
  }

  ghost function ReadTag(s: string, last: char): (r: Scan)
    ensures |r.rest| <= |s|
  {
    var k := Cspn(s, NAME_END);
    match ReadAttrs(SkipSpace(s[k..]))
    case NoQuotes => Scan(Bad(MissingQuote, true), "")
    case AttrsScan(attrs, rest) => EndTag(s[..k], attrs, rest, last)
  }

  predicate AtGt(s: string, last: char) {
    if s == "" then last == '>' else s[0] == '>'
  }

  function EndTag(name: string, attrs: seq<Attr>, s: string, last: char): (r: Scan)
    ensures |r.rest| <= |s|
  {
    if s != "" && s[0] == '/' then
      if AtGt(s[1..], last) then Scan(Open(name, attrs, true), s[1..]) else Scan(Bad(MissingGt, true), "")
    else if AtGt(s, last) then Scan(Open(name, attrs, false), s)
    else Scan(Bad(MissingGt, true), "")
  }

  // ---------------------------------------------------------------------------------- other markup

  function ReadClose(s: string, last: char): (r: Scan)
    ensures |r.rest| <= |s|
  {
    var k := Cspn(s, CLOSE_END);
    if k == |s| && last != '>' then Scan(Bad(MissingGt, false), "")
    else if k < |s| && IsSpace(s[k]) then Scan(Close(s[..k]), s[k..][Spn(s[k..], WS)..])
    else Scan(Close(s[..k]), s[k..])
  }

  function ReadComment(s: string, last: char): (r: Scan)
    ensures |r.rest| <= |s|
  {
    var n := StrStr(s, "--");
    if n == |s| || !AtGt(s[n + 2..], last) then Scan(Bad(UnclosedComment, false), "") else Scan(Skip, s[n + 2..])
  }

  ghost function ReadSection(s: string): (r: Scan)
    ensures |r.rest| <= |s|
  {
    var n := StrStr(s, "]]>");
    if n == |s| then Scan(Bad(UnclosedSection, false), "") else Scan(Section(Decoded(s[..n], CData)), s[n + 2..])
  }

  /** From behind a question mark on. */
  function ReadInstruction(s: string, last: char): (r: Scan)
    ensures |r.rest| <= |s|
    decreases |s|
  {
    if AtGt(s, last) then Scan(Skip, s)
    else
      var n := Cspn(s, "?");
      if n == |s| then Scan(Bad(UnclosedInstruction, false), "") else ReadInstruction(s[n + 1..], last)
  }

  /** A document type declaration; an internal subset is not modelled. */
  function ReadDoctype(s: string, last: char): (r: Scan)
    ensures |r.rest| <= |s|
    decreases |s|, 1
  {
    DoctypeEnd(s[Cspn(s, "[]>")..], last)
  }

  /** From a bracket or the end on; a closing bracket is passed over. */
  function DoctypeEnd(s: string, last: char): (r: Scan)
    ensures |r.rest| <= |s|
    decreases |s|, 0
  {
    if s == "" then Scan(if last == '>' then Skip else Bad(UnclosedDoctype, false), "")
    else if s[0] == '[' then Scan(Unmodelled, "")
    else if s[0] == ']' then ReadDoctype(s[1..], last)
    else Scan(Skip, s)
  }

  /** The markup behind a `<`.  The empty instruction is not modelled. */
  ghost function ReadMarkup(s: string, last: char): (r: Scan)
    ensures |r.rest| <= |s|
  {
    if IsTagStart(s) then ReadTag(s, last)
    else if s != "" && s[0] == '/' then ReadClose(s[1..], last)
    else if "!--" <= s then ReadComment(s[3..], last)
    else if "![CDATA[" <= s then ReadSection(s[8..])
    else if "!DOCTYPE" <= s then ReadDoctype(s[8..], last)
    else if s != "" && s[0] == '?' then
      if AtGt(s[1..], last) then Scan(Unmodelled, "") else ReadInstruction(s[1..], last)
    else Scan(Bad(UnexpectedLt, false), "")
  }

  // ------------------------------------------------------------------------------- whole documents

  /** Character content up to the next markup; what stands behind the last markup is dropped. */
  ghost function Tokens(s: string, last: char): seq<Token>
    decreases |s|, 1
  {
    var n := Cspn(s, "<");
    if n == |s| then []
    else if n == 0 then MarkupTokens(s[1..], last)
    else [Data(Decoded(s[..n], Text))] + MarkupTokens(s[n + 1..], last)
  }

  ghost function MarkupTokens(s: string, last: char): seq<Token>
    decreases |s|, 0
  {
    var scan := ReadMarkup(s, last);
    if scan.token.Bad? || scan.token.Unmodelled? || scan.rest == "" then [scan.token]
    else [scan.token] + Tokens(scan.rest[1..], last)
  }
}
