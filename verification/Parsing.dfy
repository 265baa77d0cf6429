/** The parser: a run over the tokens of a document that keeps the path of open tags. */
module Parsing {
  import opened Chars
  import opened Decoding
  import opened Entities
  import opened Escaping
  import opened Markup
  import opened XmlTree
  import Utf16

  /** The tag content goes to is the last of the open tags; `above` are the others, the root first. */
  datatype State = Before | Inside(above: seq<Xml>, cur: Xml) | After(root: Xml)

  datatype Outcome = Parsed(root: Xml) | Failed(error: Error) | Beyond

  datatype Next = To(state: State) | Stop(outcome: Outcome)

  /** Opens a tag at the end of the current tag's content. */
  function Push(st: State, name: string, attrs: seq<Attr>): State
    requires !st.After?
  {
    if st.Before? then Inside([], Xml(name, attrs, "", [], 0))
    else Inside(st.above + [st.cur], Xml(name, attrs, "", [], |st.cur.txt|))
  }

  function AddKid(x: Xml, kid: Xml): Xml {
    x.(kids := x.kids + [kid])
  }

  function AddText(x: Xml, text: string): Xml {
    x.(txt := x.txt + text)
  }

  /** Closes the current tag. */
  function Pop(st: State): State
    requires st.Inside?
  {
    if st.above == [] then After(st.cur)
    else Inside(st.above[..|st.above| - 1], AddKid(st.above[|st.above| - 1], st.cur))
  }

  function Content(st: State, text: string): State {
    if st.Inside? then st.(cur := AddText(st.cur, text)) else st
  }

  // ------------------------------------------------------------------------- the tree and its cursor

  /** The tree as it stands: every open tag is the last child of the one it was opened in. */
  function Linked(above: seq<Xml>, cur: Xml): Xml
    decreases |above|
  {
    if above == [] then cur else Linked(above[..|above| - 1], AddKid(above[|above| - 1], cur))
  }

  /** There are `d` levels of last children. */
  predicate Reaches(x: Xml, d: nat)
    decreases d
  {
    d == 0 || (x.kids != [] && Reaches(x.kids[|x.kids| - 1], d - 1))
  }

  /** The tag a cursor `d` levels down stands on. */
  function AtCursor(x: Xml, d: nat): Xml
    requires Reaches(x, d)
    decreases d
  {
    if d == 0 then x else AtCursor(x.kids[|x.kids| - 1], d - 1)
  }

  /** The tree with another tag at the cursor, and all else as it was. */
  function Replaced(x: Xml, d: nat, y: Xml): Xml
    requires Reaches(x, d)
    decreases d
  {
    if d == 0 then y
    else x.(kids := x.kids[..|x.kids| - 1] + [Replaced(x.kids[|x.kids| - 1], d - 1, y)])
  }

  lemma {:induction false} CursorDown(x: Xml, d: nat, kid: Xml, y: Xml)
    requires Reaches(x, d) && AtCursor(x, d).kids != [] && AtCursor(x, d).kids[|AtCursor(x, d).kids| - 1] == kid
    ensures Reaches(x, d + 1) && AtCursor(x, d + 1) == kid
    ensures var p := AtCursor(x, d);
            Replaced(x, d + 1, y) == Replaced(x, d, p.(kids := p.kids[..|p.kids| - 1] + [y]))
    decreases d
  {
    if d == 0 {
      assert Replaced(kid, 0, y) == y;
    } else {
      CursorDown(x.kids[|x.kids| - 1], d - 1, kid, y);
    }
  }

  /** The cursor stands on the current tag, and to change that tag is to change the tree there. */
  lemma {:induction false} LinkedCursor(above: seq<Xml>, cur: Xml, y: Xml)
    ensures Reaches(Linked(above, cur), |above|) && AtCursor(Linked(above, cur), |above|) == cur
    ensures Linked(above, y) == Replaced(Linked(above, cur), |above|, y)
    decreases |above|
  {
    if above != [] {
      var init, p := above[..|above| - 1], above[|above| - 1];
      var tree := Linked(above, cur);
      LinkedCursor(init, AddKid(p, cur), AddKid(p, y));
      CursorDown(tree, |init|, cur, y);
      assert AddKid(p, cur).kids[..|p.kids|] + [y] == AddKid(p, y).kids;
    }
  }

  function Step(st: State, t: Token): Next {
    match t
    case Open(name, attrs, selfClosing) =>
      if st.After? then Stop(Failed(OutsideRoot))
      else To(if selfClosing then Pop(Push(st, name, attrs)) else Push(st, name, attrs))
    case Close(name) => if st.Inside? && st.cur.name == name then To(Pop(st)) else Stop(Failed(UnexpectedClose(name)))
    case Data(text) => To(Content(st, text))
    case Section(text) => To(Content(st, text))
    case Skip => To(st)
    case Bad(error, inTag) => Stop(Failed(if inTag && st.After? then OutsideRoot else error))
    case Unmodelled => Stop(Beyond)
  }

  function Finish(st: State): Outcome {
    match st
    case Before => Failed(RootMissing)
    case Inside(_, cur) => Failed(UnclosedTag(cur.name))
    case After(root) => Parsed(root)
  }

  function Build(ts: seq<Token>, st: State): Outcome {
    if ts == [] then Finish(st)
    else
      match Step(st, ts[0])
      case To(next) => Build(ts[1..], next)
      case Stop(outcome) => outcome
  }

  /** The text up to the first NUL. */
  function CString(s: string): string {
    s[..Cspn(s, [0 as char])]
  }

  /** A whole document in bytes that are not UTF-16. */
  ghost function ParseBytes(s: string): Outcome {
    if s == "" then Failed(RootMissing)
    else Build(Tokens(CString(s[..|s| - 1]), s[|s| - 1]), Before)
  }

  /** A whole document.  A byte order mark with nothing behind it is not modelled. */
  ghost function Parse(s: string): Outcome {
    if s == "" then Failed(RootMissing)
    else
      var (marked, order) := Utf16.OrderMark(s);
      if !marked then ParseBytes(s)
      else
        var t := Utf16.Transcode(s, 2, order);
        if t == "" then Beyond else ParseBytes(t)
  }

  // -------------------------------------------------------------------------- reading from a buffer

  method DecodeText(s: string, mode: Mode) returns (r: string)
    ensures r == Decoded(s, mode)
  {
    hide *;
    PredefinedWellFormed();
    r := Decode(s, PREDEFINED, mode, RANK);
    DecodedIs(s, mode);
  }

  lemma {:induction false} DecodedIs(s: string, mode: Mode)
    ensures Ranked(PREDEFINED, RANK) && Decoded(s, mode) == Expand(NewLines(s), PREDEFINED, RANK, mode)
  {
    hide Expand, Ranked, NewLines;
    PredefinedRanked();
  }

  /** Reads the attributes at `i`. */
  method ScanAttrs(s: string, i: nat) returns (attrs: seq<Attr>, j: nat, ok: bool)
    requires i <= |s|
    ensures j <= |s| && ReadAttrs(s[i..]) == if ok then AttrsScan(attrs, s[j..]) else NoQuotes
  {
    hide ReadAttr;
    attrs, j, ok := [], i, true;
    while j < |s| && s[j] != '/' && s[j] != '>'
      invariant i <= j <= |s|
      invariant ReadAttrs(s[i..]) == ReadAttrs(s[j..]).Behind(attrs)
      decreases |s| - j
    {
      ghost var rest := s[j..];
      var attr, k, quoted := ScanAttr(s, j);
      if !quoted {
        ok := false;
        return;
      }
      BehindBehind(ReadAttrs(s[k..]), [attr], attrs);
      attrs, j := attrs + [attr], k;
    }
  }

  lemma {:induction false} BehindBehind(r: AttrsScan, a: seq<Attr>, b: seq<Attr>)
    ensures r.Behind(a).Behind(b) == r.Behind(b + a)
  {
    if r.AttrsScan? {
      assert b + (a + r.attrs) == b + a + r.attrs;
    }
  }

  /** The text from `i` on, split at `j`. */
  lemma {:induction false} SplitAt(s: string, i: nat, j: nat)
    requires i <= j <= |s|
    ensures s[i..][..j - i] == s[i..j] && s[i..][j - i..] == s[j..]
  {
  }

  method ScanSpace(s: string, i: nat) returns (j: nat)
    requires i <= |s|
    ensures i <= j <= |s| && s[j..] == SkipSpace(s[i..])
  {
    j := i;
    while j < |s| && IsSpace(s[j])
      invariant i <= j <= |s| && SkipSpace(s[j..]) == SkipSpace(s[i..])
    {
      assert s[j..][1..] == s[j + 1..];
      SplitAt(s, j, j + 1 + SpaceSpan(s[j + 1..]));
      SplitAt(s, j + 1, j + 1 + SpaceSpan(s[j + 1..]));
      j := j + 1;
    }
  }

  method ScanAttr(s: string, i: nat) returns (attr: Attr, j: nat, ok: bool)
    requires i < |s| && s[i] != '/' && s[i] != '>'
    ensures ok ==> i < j <= |s|
    ensures ReadAttr(s[i..]) == if ok then AttrScan(attr, s[j..]) else NoQuote
  {
    hide Decoded, SkipSpace, Cspn, ReadValue, ReadAttr;
    var k := i + Cspn(s[i..], ATTR_END);
    SplitAt(s, i, k);
    AttrIs(s[i..]);
    j, ok := k, true;
    if k < |s| && (s[k] == '=' || IsSpace(s[k])) {
      SplitAt(s, i, k + 1);
      attr, j, ok := ScanValue(s, k + 1, s[i..k]);
    } else {
      attr := Attr(s[i..k], "");
      j := ScanSpace(s, j);
    }
  }

  lemma {:induction false} AttrIs(s: string)
    ensures var k := Cspn(s, ATTR_END);
            ReadAttr(s) == if k < |s| && (s[k] == '=' || IsSpace(s[k])) then ReadValue(s[..k], s[k + 1..])
                           else AttrScan(Attr(s[..k], ""), SkipSpace(s[k..]))
  {
    hide Decoded, SkipSpace, Cspn, ReadValue, IsSpace;
  }

  method ScanValue(s: string, i: nat, name: string) returns (attr: Attr, j: nat, ok: bool)
    requires i <= |s|
    ensures i <= j <= |s|
    ensures ReadValue(name, s[i..]) == if ok then AttrScan(attr, s[j..]) else NoQuote
  {
    hide Decoded, SkipSpace, Cspn, Spn, ReadValue;
    j, ok, attr := i + Spn(s[i..], " \t\r\n="), true, Attr(name, "");
    SplitAt(s, i, j);
    ValueIs(name, s[i..], s[j..]);
    if j < |s| && (s[j] == '"' || s[j] == '\'') {
      var value, quoted;
      value, j, quoted := ScanQuoted(s, j);
      if !quoted {
        ok := false;
        return;
      }
      attr := Attr(name, value);
    }
    j := ScanSpace(s, j);
  }

  /** Reads up to the quote that `s` has at `i`. */
  method ScanQuoted(s: string, i: nat) returns (value: string, j: nat, ok: bool)
    requires i < |s|
    ensures i <= j <= |s|
    ensures var m := Cspn(s[i..][1..], [s[i]]);
            if ok then m + 1 < |s[i..]| && value == Decoded(s[i..][1..][..m], Attribute) && s[j..] == s[i..][m + 2..]
            else m + 1 == |s[i..]|
  {
    hide Decoded, Cspn;
    SplitAt(s, i, i + 1);
    var m := i + 1 + Cspn(s[i + 1..], [s[i]]);
    if m == |s| {
      return "", m, false;
    }
    SplitAt(s, i + 1, m);
    SplitAt(s, i, m + 1);
    value := DecodeText(s[i + 1..m], Attribute);
    j, ok := m + 1, true;
  }

  lemma {:induction false} ValueIs(name: string, s: string, t: string)
    requires t == s[Spn(s, " \t\r\n=")..]
    ensures ReadValue(name, s) ==
            if t != "" && (t[0] == '"' || t[0] == '\'') then
              var m := Cspn(t[1..], [t[0]]);
              if m == |t| - 1 then NoQuote
              else AttrScan(Attr(name, Decoded(t[1..][..m], Attribute)), SkipSpace(t[m + 2..]))
            else AttrScan(Attr(name, ""), SkipSpace(t))
  {
    hide Decoded, SkipSpace, Cspn, Spn;
  }

  method ScanTag(s: string, i: nat, last: char) returns (t: Token, j: nat)
    requires i <= |s|
    ensures j <= |s| && ReadTag(s[i..], last) == Scan(t, s[j..])
  {
    hide ReadAttrs, Cspn, SkipSpace, EndTag;
    var k := i + Cspn(s[i..], NAME_END);
    SplitAt(s, i, k);
    j := ScanSpace(s, k);
    var attrs, at, ok := ScanAttrs(s, j);
    if ok {
      t, j := ScanTagEnd(s, at, s[i..k], attrs, last);
    } else {
      t, j := Bad(MissingQuote, true), |s|;
    }
  }

  method ScanTagEnd(s: string, i: nat, name: string, attrs: seq<Attr>, last: char) returns (t: Token, j: nat)
    requires i <= |s|
    ensures j <= |s| && EndTag(name, attrs, s[i..], last) == Scan(t, s[j..])
  {
    j := i;
    if j < |s| && s[j] == '/' {
      j := j + 1;
      assert s[i..][1..] == s[j..];
      if (j < |s| && s[j] != '>') || (j == |s| && last != '>') {
        return Bad(MissingGt, true), |s|;
      }
      t := Open(name, attrs, true);
    } else if (j < |s| && s[j] == '>') || (j == |s| && last == '>') {
      t := Open(name, attrs, false);
    } else {
      return Bad(MissingGt, true), |s|;
    }
  }

  // --------------------------------------------------------------------------------- other markup

  method ScanClose(s: string, i: nat, last: char) returns (t: Token, j: nat)
    requires i <= |s|
    ensures j <= |s| && ReadClose(s[i..], last) == Scan(t, s[j..])
  {
    hide Cspn, Spn;
    j := i + Cspn(s[i..], CLOSE_END);
    SplitAt(s, i, j);
    if j == |s| && last != '>' {
      return Bad(MissingGt, false), |s|;
    }
    t := Close(s[i..j]);
    if j < |s| && IsSpace(s[j]) {
      SplitAt(s, j, j + Spn(s[j..], WS));
      j := j + Spn(s[j..], WS);
    }
  }

  method ScanComment(s: string, i: nat, last: char) returns (t: Token, j: nat)
    requires i <= |s|
    ensures j <= |s| && ReadComment(s[i..], last) == Scan(t, s[j..])
  {
    hide StrStr;
    var n := i + StrStr(s[i..], "--");
    if n == |s| {
      return Bad(UnclosedComment, false), |s|;
    }
    SplitAt(s, i, n);
    SplitAt(s, i, n + 2);
    j := n + 2;
    if (j < |s| && s[j] != '>') || (j == |s| && last != '>') {
      return Bad(UnclosedComment, false), |s|;
    }
    t := Skip;
  }

  method ScanSection(s: string, i: nat) returns (t: Token, j: nat)
    requires i <= |s|
    ensures j <= |s| && ReadSection(s[i..]) == Scan(t, s[j..])
  {
    hide StrStr, Decoded;
    var n := i + StrStr(s[i..], "]]>");
    if n == |s| {
      return Bad(UnclosedSection, false), |s|;
    }
    SplitAt(s, i, n);
    SplitAt(s, i, n + 2);
    var text := DecodeText(s[i..n], CData);
    t, j := Section(text), n + 2;
  }

  method ScanInstruction(s: string, i: nat, last: char) returns (t: Token, j: nat)
    requires i <= |s|
    ensures j <= |s| && ReadInstruction(s[i..], last) == Scan(t, s[j..])
  {
    hide Cspn, ReadInstruction;
    j := i;
    while j < |s| && s[j] != '>'
      invariant i <= j <= |s| && ReadInstruction(s[i..], last) == ReadInstruction(s[j..], last)
    {
      InstructionIs(s[j..], last);
      var n := j + Cspn(s[j..], "?");
      if n == |s| {
        return Bad(UnclosedInstruction, false), |s|;
      }
      SplitAt(s, j, n + 1);
      j := n + 1;
    }
    InstructionIs(s[j..], last);
    if j == |s| && last != '>' {
      return Bad(UnclosedInstruction, false), |s|;
    }
    t := Skip;
  }

  lemma {:induction false} InstructionIs(s: string, last: char)
    ensures ReadInstruction(s, last) ==
            if AtGt(s, last) then Scan(Skip, s)
            else if Cspn(s, "?") == |s| then Scan(Bad(UnclosedInstruction, false), "")
            else ReadInstruction(s[Cspn(s, "?") + 1..], last)
  {
    hide Cspn;
  }

  method ScanDoctype(s: string, i: nat, last: char) returns (t: Token, j: nat)
    requires i <= |s|
    ensures j <= |s| && ReadDoctype(s[i..], last) == Scan(t, s[j..])
  {
    hide Cspn, ReadDoctype;
    j := i + Cspn(s[i..], "[]>");
    SplitAt(s, i, j);
    DoctypeIs(s[i..], last);
    while j < |s| && s[j] == ']'
      invariant i <= j <= |s| && (j < |s| ==> s[j] in "[]>")
      invariant ReadDoctype(s[i..], last) == DoctypeEnd(s[j..], last)
    {
      SplitAt(s, j, j + 1);
      DoctypeIs(s[j + 1..], last);
      ghost var k := j + 1;
      j := j + 1 + Cspn(s[j + 1..], "[]>");
      SplitAt(s, k, j);
    }
    if j < |s| && s[j] == '[' {
      t, j := Unmodelled, |s|;
    } else if j == |s| && last != '>' {
      t := Bad(UnclosedDoctype, false);
    } else {
      t := Skip;
    }
  }

  lemma {:induction false} DoctypeIs(s: string, last: char)
    ensures ReadDoctype(s, last) == DoctypeEnd(s[Cspn(s, "[]>")..], last)
  {
    hide Cspn, DoctypeEnd;
  }

  method ScanMarkup(s: string, i: nat, last: char) returns (t: Token, j: nat)
    requires i <= |s|
    ensures j <= |s| && ReadMarkup(s[i..], last) == Scan(t, s[j..])
  {
    hide ReadTag, ReadClose, ReadComment, ReadSection, ReadInstruction, ReadDoctype;
    if IsTagStart(s[i..]) {
      t, j := ScanTag(s, i, last);
    } else if i < |s| && s[i] == '/' {
      SplitAt(s, i, i + 1);
      t, j := ScanClose(s, i + 1, last);
    } else if "!--" <= s[i..] {
      SplitAt(s, i, i + 3);
      t, j := ScanComment(s, i + 3, last);
    } else if "![CDATA[" <= s[i..] {
      SplitAt(s, i, i + 8);
      t, j := ScanSection(s, i + 8);
    } else if "!DOCTYPE" <= s[i..] {
      SplitAt(s, i, i + 8);
      t, j := ScanDoctype(s, i + 8, last);
    } else if i < |s| && s[i] == '?' {
      SplitAt(s, i, i + 1);
      if AtGt(s[i + 1..], last) {
        t, j := Unmodelled, |s|;
      } else {
        t, j := ScanInstruction(s, i + 1, last);
      }
    } else {
      t, j := Bad(UnexpectedLt, false), |s|;
    }
  }

  // ------------------------------------------------------------------------------------ the parser

  lemma {:induction false} OpenedTree(st: State, name: string, attrs: seq<Attr>)
    requires !st.After?
    ensures st.Before? ==> Linked([], Xml(name, attrs, "", [], 0)) == Xml(name, attrs, "", [], 0)
    ensures st.Inside? ==>
              var tree, d, kid := Linked(st.above, st.cur), |st.above|, Xml(name, attrs, "", [], |st.cur.txt|);
              && Reaches(tree, d) && AtCursor(tree, d) == st.cur
              && var tree2 := Linked(st.above + [st.cur], kid);
                 && Reaches(tree2, d + 1) && AtCursor(tree2, d + 1) == kid
                 && tree2 == Replaced(tree, d, AddKid(st.cur, kid))
  {
    if st.Inside? {
      var kid := Xml(name, attrs, "", [], |st.cur.txt|);
      var path := st.above + [st.cur];
      assert path[..|path| - 1] == st.above;
      LinkedCursor(st.above, st.cur, AddKid(st.cur, kid));
      LinkedCursor(path, kid, kid);
      hide Reaches, AtCursor, Replaced;
    }
  }

  /** The tree under construction, and the tag new content goes to. */
  class Document {
    var state: State

    constructor ()
      ensures state == Before
    {
      state := Before;
    }

    /** The tree built so far, with the tags still open in their places. */
    ghost function Tree(): Xml
      requires !state.Before?
      reads this
    {
      match state
      case Inside(above, cur) => Linked(above, cur)
      case After(root) => root
    }

    /** How far below the root the cursor stands. */
    ghost function Depth(): nat
      requires state.Inside?
      reads this
    {
      |state.above|
    }

    /** The tag at the cursor, which is the current one. */
    ghost function Cursor(): (x: Xml)
      requires state.Inside?
      reads this
      ensures x == state.cur
    {
      LinkedCursor(state.above, state.cur, state.cur);
      AtCursor(Tree(), Depth())
    }

    /** Opens a tag: it becomes the last child of the tag at the cursor, behind that tag's text, and the
        cursor moves onto it. */
    method OpenTag(name: string, attrs: seq<Attr>)
      requires !state.After?
      modifies this
      ensures state == Push(old(state), name, attrs)
      ensures old(state).Before? ==> Tree() == Xml(name, attrs, "", [], 0) && Depth() == 0
      ensures old(state).Inside? ==>
                && Depth() == old(Depth()) + 1 && Cursor() == Xml(name, attrs, "", [], |old(Cursor()).txt|)
                && Reaches(old(Tree()), old(Depth()))
                && Tree() == Replaced(old(Tree()), old(Depth()), AddKid(old(Cursor()), Cursor()))
    {
      hide Linked, Replaced, AtCursor, Reaches;
      OpenedTree(state, name, attrs);
      match state
      case Inside(above, cur) => state := Inside(above + [cur], Xml(name, attrs, "", [], |cur.txt|));
      case Before => state := Inside([], Xml(name, attrs, "", [], 0));
    }

    /** Adds text to the tag at the cursor; outside the root it is dropped. */
    method CharContent(text: string)
      modifies this
      ensures state == Content(old(state), text)
      ensures !old(state).Inside? ==> state == old(state)
      ensures old(state).Inside? ==>
                && state.Inside? && Depth() == old(Depth()) && Cursor().txt == old(Cursor()).txt + text
                && Reaches(old(Tree()), old(Depth()))
                && Tree() == Replaced(old(Tree()), old(Depth()), old(Cursor()).(txt := old(Cursor()).txt + text))
    {
      hide Linked, Replaced, AtCursor, Reaches;
      if state.Inside? {
        LinkedCursor(state.above, state.cur, state.cur);
        LinkedCursor(state.above, state.cur, AddText(state.cur, text));
        LinkedCursor(state.above, AddText(state.cur, text), state.cur);
      }
      if state.Inside? && text != "" {
        state := state.(cur := AddText(state.cur, text));
      }
      assert forall s: string :: s + "" == s;
    }

    /** Moves the cursor up from a tag of that name; the tree stays as it is. */
    method CloseTag(name: string) returns (ok: bool)
      modifies this
      ensures ok <==> old(state).Inside? && old(Cursor()).name == name
      ensures state == if ok then Pop(old(state)) else old(state)
      ensures ok ==> !state.Before? && Tree() == old(Tree())
      ensures ok ==> if old(Depth()) == 0 then state.After? else state.Inside? && Depth() == old(Depth()) - 1
    {
      hide Replaced, AtCursor, Reaches;
      if state.Inside? {
        LinkedCursor(state.above, state.cur, state.cur);
      }
      if !state.Inside? || state.cur.name != name {
        return false;
      }
      var k := |state.above|;
      state := if k == 0 then After(state.cur) else Inside(state.above[..k - 1], AddKid(state.above[k - 1], state.cur));
      return true;
    }

    /** Acts on one piece of markup. */
    method Act(t: Token) returns (outcome: Outcome, ok: bool)
      modifies this
      ensures match Step(old(state), t) case To(next) => ok && state == next case Stop(o) => !ok && outcome == o
    {
      outcome, ok := Beyond, true;
      match t {
        case Open(name, attrs, selfClosing) =>
          if state.After? {
            return Failed(OutsideRoot), false;
          }
          OpenTag(name, attrs);
          if selfClosing {
            ok := CloseTag(name);
          }
        case Close(name) =>
          ok := CloseTag(name);
          outcome := Failed(UnexpectedClose(name));
        case Data(text) => CharContent(text);
        case Section(text) => CharContent(text);
        case Skip =>
        case Bad(error, inTag) => return Failed(if inTag && state.After? then OutsideRoot else error), false;
        case Unmodelled => return Beyond, false;
      }
    }

    /** Reads the document in `s`, whose last character `last` has made room for the terminator. */
    method Read(s: string, last: char) returns (outcome: Outcome)
      requires state == Before
      modifies this
      ensures outcome == Build(Tokens(s, last), Before)
    {
      hide Decoded, Tokens, MarkupTokens, ReadMarkup, Build, Step;
      var i, more := ReadContent(s, 0, last);
      assert s[0..] == s;
      while more
        invariant 0 <= i <= |s|
        invariant Build(Tokens(s, last), Before) ==
                  if more then Build(MarkupTokens(s[i..], last), state) else Finish(state)
        decreases more, |s| - i
      {
        BuildMarkup(s[i..], last, state);
        var t, j := ScanMarkup(s, i, last);
        ReadShrinks(s, i, j, last);
        var ok;
        outcome, ok := Act(t);
        if !ok {
          return;
        }
        if j == |s| {
          more := false;
        } else {
          SplitAt(s, j, j + 1);
          i, more := ReadContent(s, j + 1, last);
        }
      }
      outcome := Finish(state);
    }

    /** Reads character content up to the next markup, if there is more. */
    method ReadContent(s: string, j: nat, last: char) returns (i: nat, more: bool)
      requires j <= |s|
      modifies this
      ensures j <= i <= |s|
      ensures Build(Tokens(s[j..], last), old(state)) ==
              if more then Build(MarkupTokens(s[i..], last), state) else Finish(state)
    {
      hide Decoded, Tokens, MarkupTokens, Build, Cspn;
      BuildText(s[j..], last, state);
      var n := j + Cspn(s[j..], "<");
      SplitAt(s, j, n);
      if n == |s| {
        return n, false;
      }
      SplitAt(s, j, n + 1);
      if n > j {
        var text := DecodeText(s[j..n], Text);
        CharContent(text);
      }
      return n + 1, true;
    }
  }

  lemma {:induction false} ReadShrinks(s: string, i: nat, j: nat, last: char)
    requires i <= |s| && j <= |s| && ReadMarkup(s[i..], last).rest == s[j..]
    ensures i <= j
  {
    hide ReadMarkup;
  }

  lemma {:induction false} BuildMarkup(s: string, last: char, st: State)
    ensures Build(MarkupTokens(s, last), st) ==
            match Step(st, ReadMarkup(s, last).token)
            case Stop(outcome) => outcome
            case To(next) =>
              if ReadMarkup(s, last).rest == "" then Finish(next)
              else Build(Tokens(ReadMarkup(s, last).rest[1..], last), next)
  {
    hide ReadMarkup, Tokens;
    var scan := ReadMarkup(s, last);
    var ts := MarkupTokens(s, last);
    assert ts[0] == scan.token;
    if scan.token.Bad? || scan.token.Unmodelled? || scan.rest == "" {
      assert ts[1..] == [];
    } else {
      assert ts[1..] == Tokens(scan.rest[1..], last);
    }
  }

  lemma {:induction false} BuildText(s: string, last: char, st: State)
    ensures var n := Cspn(s, "<");
            Build(Tokens(s, last), st) ==
            if n == |s| then Finish(st)
            else if n == 0 then Build(MarkupTokens(s[1..], last), st)
            else Build(MarkupTokens(s[n + 1..], last), Content(st, Decoded(s[..n], Text)))
  {
    hide MarkupTokens, Decoded;
    var n := Cspn(s, "<");
    if 0 < n < |s| {
      var ts := Tokens(s, last);
      assert ts[0] == Data(Decoded(s[..n], Text)) && ts[1..] == MarkupTokens(s[n + 1..], last);
    }
  }

  method ParseStr(s: string) returns (outcome: Outcome)
    ensures outcome == Parse(s)
  {
    hide Tokens, Build, Utf16.Transcode;
    if |s| == 0 {
      return Failed(RootMissing);
    }
    var text := s;
    var converted := Utf16.Str2Utf8(s);
    if converted.Converted? {
      text := converted.text;
      if |text| == 0 {
        return Beyond;
      }
    }
    var document := new Document();
    outcome := document.Read(CString(text[..|text| - 1]), text[|text| - 1]);
  }
}
