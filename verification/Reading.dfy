/** What the parser makes of markup that the printer does not write, stated over the text of the document. */
module Reading {
  import opened Chars
  import opened Decoding
  import opened Escaping
  import opened Markup
  import opened Nesting
  import opened Parsing
  import opened References
  import opened RoundTrip
  import Utf16
  import Utf8
  import opened Writing
  import opened XmlTree

  // ----------------------------------------------------------------------------------------------- names

  /** The characters of names (section 2.3 of XML 1.0), bytes from 0x80 on standing for all that are not ASCII. */
  predicate StartsName(c: char) {
    'a' <= c <= 'z' || 'A' <= c <= 'Z' || c == '_' || c == ':' || 0x80 as char <= c <= 0xFF as char
  }

  predicate InName(c: char) {
    StartsName(c) || '0' <= c <= '9' || c == '-' || c == '.'
  }

  // ------------------------------------------------------------------------------ in front of a document

  lemma {:induction false} SkipsMarkup(x: Source, s: string)
    requires IsSource(x) && IsMisc(x) && !x.Prose? && Unmarked(s)
    ensures Parse("<" + (Body(x) + (">" + s))) == Parse(s)
  {
    hide Parse, Tokens, MarkupTokens, Build, Body, CString, Decoded;
    var m := "<" + (Body(x) + ">");
    var init, last := s[..|s| - 1], s[|s| - 1];
    WriteNoNul(x);
    NoNulKept(m, init);
    var t := "<" + (Body(x) + (">" + s));
    assert t[..|t| - 1] == m + init && t[|t| - 1] == last;
    ParseIs(t);
    ParseIs(s);
    var c := CString(init);
    assert m + c == "<" + (Body(x) + (">" + c));
    MarkupNext(Body(x) + (">" + c), last);
    MarkupReads(x, c, last);
    LeafTokens(x);
    BuildOne(Skip, Tokens(c, last), Before);
  }

  /** A processing instruction, as every profile begins with. */
  lemma {:induction false} InstructionInFront(p: string, s: string)
    requires Lacks(p, "?>") && (p != "" ==> p[0] != '>') && NoneOf(p, NUL) && Unmarked(s)
    ensures Parse("<?" + (p + ("?>" + s))) == Parse(s)
  {
    hide Parse, Lacks;
    SkipsMarkup(Instruction(p), s);
    assert "<?" + (p + ("?>" + s)) == "<" + (("?" + (p + "?")) + (">" + s));
  }

  lemma {:induction false} CommentInFront(c: string, s: string)
    requires Lacks(c, "--") && (c != "" ==> c[|c| - 1] != '-') && NoneOf(c, NUL) && Unmarked(s)
    ensures Parse("<!--" + (c + ("-->" + s))) == Parse(s)
  {
    hide Parse, Lacks;
    SkipsMarkup(Remark(c), s);
    assert "<!--" + (c + ("-->" + s)) == "<" + (("!--" + (c + "--")) + (">" + s));
  }

  lemma {:induction false} DoctypeInFront(d: string, s: string)
    requires NoneOf(d, "[>") && NoneOf(d, NUL) && Unmarked(s)
    ensures Parse("<!DOCTYPE" + (d + (">" + s))) == Parse(s)
  {
    hide Parse;
    SkipsMarkup(Doctype(d), s);
    assert "<!DOCTYPE" + (d + (">" + s)) == "<" + (("!DOCTYPE" + d) + (">" + s));
  }

  /** One with an internal subset is beyond this model. */
  lemma {:induction false} SubsetIsBeyond(d: string, s: string)
    requires NoneOf(d, "[]>") && NoneOf(d, NUL) && s != "" && NoneOf(s, NUL)
    ensures Parse("<!DOCTYPE" + (d + ("[" + s))) == Beyond
  {
    hide Parse, ReadMarkup, NoneOf, MarkupTokens, Build;
    var init, last := s[..|s| - 1], s[|s| - 1];
    var m := "!DOCTYPE" + (d + ("[" + init));
    assert s == init + [last];
    NoneOfConcat(init, [last], NUL);
    SubsetNoNul(d, init);
    SubsetReads(d, init, last);
    FirstMarkup(m, last);
    SubsetText(d, init, last);
    StopsBeyond(m, last);
  }

  lemma {:induction false} SubsetText(d: string, init: string, last: char)
    ensures "<!DOCTYPE" + (d + ("[" + (init + [last]))) == "<" + (("!DOCTYPE" + (d + ("[" + init))) + [last])
  {
  }

  lemma {:induction false} SubsetReads(d: string, s: string, last: char)
    requires NoneOf(d, "[]>")
    ensures ReadMarkup("!DOCTYPE" + (d + ("[" + s)), last).token.Unmodelled?
  {
    hide ReadMarkup, Cspn, NoneOf;
    var t := d + ("[" + s);
    assert t[..|d|] == d && t[|d|..] == "[" + s;
    CspnIs(t, "[]>", |d|);
    DoctypeIs(t, last);
    Kinds(t, last);
  }

  lemma {:induction false} SubsetNoNul(d: string, s: string)
    requires NoneOf(d, NUL) && NoneOf(s, NUL)
    ensures NoneOf("!DOCTYPE" + (d + ("[" + s)), NUL)
  {
  }

  lemma {:induction false} StopsBeyond(m: string, last: char)
    requires ReadMarkup(m, last).token.Unmodelled?
    ensures Build(MarkupTokens(m, last), Before) == Beyond
  {
    hide ReadMarkup, Tokens;
    BuildOne(Unmodelled, [], Before);
  }

  /** Text in front of the first markup, as blanks between prolog and root. */
  lemma {:induction false} TextInFront(t: string, s: string)
    requires NoneOf(t, "<") && NoneOf(t, NUL) && (t != "" ==> Unmarked(t)) && s != "" && s[0] == '<'
    ensures Parse(t + s) == Parse(s)
  {
    hide Parse, Tokens, MarkupTokens, Build, CString, Decoded;
    if t == "" {
      assert t + s == s;
      return;
    }
    var init, last := s[..|s| - 1], s[|s| - 1];
    assert (t + s)[..|t + s| - 1] == t + init;
    NoNulKept(t, init);
    ParseIs(t + s);
    ParseIs(s);
    if |s| == 1 {
      NothingLeft(t);
    } else {
      var c := CString(init);
      HeadKept(init);
      assert c == "<" + c[1..];
      ProseThen(t, c[1..], last);
      MarkupNext(c[1..], last);
      BuildOne(Data(Decoded(t, Text)), MarkupTokens(c[1..], last), Before);
    }
  }

  lemma {:induction false} HeadKept(s: string)
    requires s != "" && s[0] != 0 as char
    ensures CString(s) != "" && CString(s)[0] == s[0]
  {
  }

  lemma {:induction false} NothingLeft(t: string)
    requires NoneOf(t, "<") && NoneOf(t, NUL)
    ensures Tokens(t + CString(""), '<') == [] && Tokens(CString(""), '<') == []
  {
    assert t + CString("") == t;
    CspnIs(t, "<", |t|);
  }

  /** The byte order mark of UTF-8 is such text. */
  lemma {:induction false} Utf8MarkInFront(s: string)
    requires s != "" && s[0] == '<'
    ensures Parse([0xEF as char, 0xBB as char, 0xBF as char] + s) == Parse(s)
  {
    hide Parse;
    TextInFront([0xEF as char, 0xBB as char, 0xBF as char], s);
  }

  /** A document in UTF-16 of either byte order reads as the same code points in UTF-8. */
  lemma {:induction false} Utf16Reads(cs: seq<nat>)
    requires cs != [] && Utf16.AllScalar(cs)
    ensures Parse([0xFE as char, 0xFF as char] + Utf16.Encode16All(cs, Utf16.BigEndian))
         == Parse(Utf16.Encode8All(cs))
    ensures Parse([0xFF as char, 0xFE as char] + Utf16.Encode16All(cs, Utf16.LittleEndian))
         == Parse(Utf16.Encode8All(cs))
  {
    hide Utf16.Encode16All, Utf16.Encode8All, Utf16.Transcode, Utf16.AllScalar, ParseBytes;
    Utf16.WellFormedTranscodes(cs, Utf16.BigEndian);
    Utf16.WellFormedTranscodes(cs, Utf16.LittleEndian);
    Utf8Unmarked(cs);
  }

  lemma {:induction false} Utf8Unmarked(cs: seq<nat>)
    requires cs != [] && Utf16.AllScalar(cs)
    ensures Utf16.Encode8All(cs) != "" && Unmarked(Utf16.Encode8All(cs))
  {
    var head := Utf8.Rfc3629(cs[0]);
    assert head != "" && head[0] as int <= 0xF4;
    assert Utf16.Encode8All(cs) == head + Utf16.Encode8All(cs[1..]);
  }

  /** A prolog does not change how a printed tree is read. */
  lemma {:induction false} PrologThenPrinted(p: string, x: Xml)
    requires Lacks(p, "?>") && (p != "" ==> p[0] != '>') && NoneOf(p, NUL)
    requires Named(x) && WellPlaced(x) && x.off == 0
    ensures Parse("<?" + (p + ("?>" + Print(x)))) == Parsed(RoundTrip.Shown(x))
    ensures Parse("<?" + (p + ("?>\r\n" + Print(x)))) == Parsed(RoundTrip.Shown(x))
  {
    hide Parse, Lacks, Named, WellPlaced, RoundTrip.Shown, PrintAll, PrintAttrs;
    PrintedParses(x);
    assert Print(x)[0] == '<';
    InstructionInFront(p, Print(x));
    TextInFront("\r\n", Print(x));
    InstructionInFront(p, "\r\n" + Print(x));
    assert "?>\r\n" + Print(x) == "?>" + ("\r\n" + Print(x));
  }

  // -------------------------------------------------------------------------------------- single elements

  /** A document that is one element. */
  lemma {:induction false} OneElement(x: Source)
    requires IsSource(x) && (x.Empty? || x.Full?)
    ensures Parse("<" + (Body(x) + ">")) == Parsed(TreeOf(Meant(x), 0))
  {
    hide Parse, Body, Meant, TreeOf, IsTagName;
    assert [] + [x] + [] == [x] && [x][1..] == [];
    assert WriteAll([x]) == "<" + (Body(x) + ">");
    assert WriteAll([x]) + "" == WriteAll([x]);
    WrittenParses([], x, [], "");
  }

  lemma {:induction false} EmptyReads(n: string, settings: seq<Setting>)
    requires IsTagName(n) && AreSettings(settings)
    ensures Parse("<" + (n + (WriteSettings(settings) + "/>"))) == Parsed(Xml(n, MeantAttrs(settings), "", [], 0))
  {
    hide Parse, IsTagName, AreSettings, WriteSettings, MeantAttrs;
    var x := Empty(n, settings, "");
    assert IsSource(x) by { NoBlank(); }
    OneElement(x);
    assert "" + "/" == "/";
    assert "<" + (Body(x) + ">") == "<" + (n + (WriteSettings(settings) + "/>"));
    EmptyTree(x);
  }

  lemma {:induction false} NoBlank()
    ensures IsBlank("") && IsBlank(" ") && AreSettings([])
  {
  }

  lemma {:induction false} EmptyTree(x: Source)
    requires x.Empty?
    ensures Meant(x).Element? && TreeOf(Meant(x), 0) == Xml(x.name, MeantAttrs(x.settings), "", [], 0)
  {
    hide MeantAttrs;
  }

  lemma {:induction false} FullParses(n: string, inner: seq<Source>)
    requires IsTagName(n) && AreSources(inner)
    ensures Parse("<" + (n + (">" + (WriteAll(inner) + ("</" + (n + ">"))))))
         == Parsed(Xml(n, [], TextOf(MeantAll(inner)), KidsOf(MeantAll(inner), 0), 0))
  {
    hide Parse, IsTagName, AreSources, WriteAll, MeantAll, TextOf, KidsOf, Body;
    var x := Full(n, [], "", inner, "");
    assert IsSource(x) by { NoBlank(); }
    OneElement(x);
    FullBody(x, ">");
    NoSettings();
    var end, written := "</" + (n + ">"), WriteAll(inner);
    assert "<" + ("/" + (n + ("" + ">"))) == end;
    assert Body(x) + ">" == n + ("" + ("" + (">" + (written + end))));
    assert "" + ("" + (">" + (written + end))) == ">" + (written + end);
    FullTree(x);
  }

  lemma {:induction false} NoSettings()
    ensures WriteSettings([]) == "" && MeantAttrs([]) == []
  {
  }

  lemma {:induction false} FullTree(x: Source)
    requires x.Full?
    ensures var items := MeantAll(x.inner);
            && Meant(x).Element?
            && TreeOf(Meant(x), 0) == Xml(x.name, MeantAttrs(x.settings), TextOf(items), KidsOf(items, 0), 0)
  {
    hide MeantAttrs, MeantAll, TextOf, KidsOf;
  }

  /** A tag with a slash is read as one that is closed at once. */
  lemma {:induction false} SlashCloses(n: string)
    requires IsTagName(n)
    ensures Parse("<" + (n + "/>")) == Parse("<" + (n + ("></" + (n + ">")))) == Parsed(Xml(n, [], "", [], 0))
  {
    hide Parse, IsTagName;
    NoBlank();
    EmptyReads(n, []);
    FullParses(n, []);
    assert "" + "/>" == "/>";
    assert ">" + ("" + ("</" + (n + ">"))) == "></" + (n + ">");
  }

  /** The text of a section comes back as it stands, but for line ends; markup and references in it are text. */
  lemma {:induction false} SectionIsText(n: string, t: string)
    requires IsTagName(n) && Lacks(t, "]]>") && NoneOf(t, NUL)
    ensures Parse("<" + (n + ("><![CDATA[" + (t + ("]]></" + (n + ">")))))) == Parsed(Xml(n, [], NewLines(t), [], 0))
    ensures NoneOf(t, "\r") ==>
              Parse("<" + (n + ("><![CDATA[" + (t + ("]]></" + (n + ">")))))) == Parsed(Xml(n, [], t, [], 0))
  {
    hide Parse, IsTagName, NewLines, Lacks, Decoded;
    SectionStays(t);
    if NoneOf(t, "\r") {
      NewLinesWithoutReturns(t);
    }
    OneSection(t);
    FullParses(n, [Verbatim(t)]);
    var end := "</" + (n + ">");
    assert "<" + (n + ("><![CDATA[" + (t + ("]]></" + (n + ">")))))
        == "<" + (n + (">" + (("<![CDATA[" + (t + "]]>")) + end)));
  }

  lemma {:induction false} OneSection(t: string)
    requires Lacks(t, "]]>") && NoneOf(t, NUL)
    ensures var xs, items := [Verbatim(t)], MeantAll([Verbatim(t)]);
            && AreSources(xs) && WriteAll(xs) == "<![CDATA[" + (t + "]]>")
            && TextOf(items) == Decoded(t, CData) && KidsOf(items, 0) == []
  {
    hide Decoded, Lacks;
    var x, item := Verbatim(t), Leaf(Token.Section(Decoded(t, CData)));
    OneWritten(x);
    assert Write(x) == "<![CDATA[" + (t + "]]>");
    assert [item][1..] == [];
    assert Decoded(t, CData) + "" == Decoded(t, CData);
  }

  lemma {:induction false} OneWritten(x: Source)
    ensures WriteAll([x]) == Write(x) && MeantAll([x]) == [Meant(x)] && AreSources([x]) == IsSource(x)
  {
    hide Write, Meant, IsSource;
    assert [x][1..] == [] && Write(x) + "" == Write(x);
  }

  lemma {:induction false} NextWritten(x: Source, xs: seq<Source>)
    ensures WriteAll([x] + xs) == Write(x) + WriteAll(xs) && MeantAll([x] + xs) == [Meant(x)] + MeantAll(xs)
    ensures AreSources([x] + xs) <==> IsSource(x) && AreSources(xs) && (x.Prose? && xs != [] ==> !xs[0].Prose?)
  {
    hide Write, Meant, IsSource;
    assert ([x] + xs)[1..] == xs;
  }

  /** A value in quotes of either kind, with blanks around the equals sign. */
  lemma {:induction false} QuotedValue(n: string, a: string, before: string, after: string, q: char, v: string)
    requires IsTagName(n) && IsAttrName(a) && IsBlank(before) && IsBlank(after) && (q == '"' || q == '\'')
    requires NoneOf(v, [q]) && NoneOf(v, NUL)
    ensures Parse("<" + (n + (" " + (a + (before + ("=" + (after + ([q] + (v + ([q] + "/>"))))))))))
         == Parsed(Xml(n, [Attr(a, Decoded(v, Attribute))], "", [], 0))
  {
    hide Parse, IsTagName, IsAttrName, IsBlank, Decoded, NoneOf;
    var s := Setting(" ", a, before, after, q, v);
    NoBlank();
    assert IsSetting(s);
    OneSetting(s);
    EmptyReads(n, [s]);
    assert "<" + (n + (" " + (a + (before + ("=" + (after + ([q] + (v + ([q] + "/>")))))))))
        == "<" + (n + (WriteSetting(s) + "/>"));
  }

  lemma {:induction false} OneSetting(s: Setting)
    ensures WriteSettings([s]) == WriteSetting(s) && MeantAttrs([s]) == [Attr(s.name, Decoded(s.raw, Attribute))]
    ensures IsSetting(s) ==> AreSettings([s])
  {
    hide Decoded, WriteSetting, IsSetting;
    assert [s][1..] == [] && WriteSetting(s) + "" == WriteSetting(s);
  }

  /** Text, a tag, text: the tag stands behind the first piece of text. */
  lemma {:induction false} TagInText(t: string, u: string)
    requires t != "" && u != "" && NoneOf(t, "<") && NoneOf(u, "<") && NoneOf(t, NUL) && NoneOf(u, NUL)
    ensures Parse("<a>" + (t + ("<b/>" + (u + "</a>")))) ==
            Parsed(Xml("a", [], Decoded(t, Text) + Decoded(u, Text), [Xml("b", [], "", [], |Decoded(t, Text)|)], 0))
  {
    hide *;
    Names();
    MixedSources(t, u);
    FullParses("a", [Prose(t), Empty("b", [], ""), Prose(u)]);
    ThreeItems(Decoded(t, Text), Decoded(u, Text));
    assert "<a>" + (t + ("<b/>" + (u + "</a>")))
        == "<" + ("a" + (">" + ((t + ("<b/>" + u)) + ("</" + ("a" + ">")))));
  }

  lemma {:induction false} MixedSources(t: string, u: string)
    requires t != "" && u != "" && NoneOf(t, "<") && NoneOf(u, "<") && NoneOf(t, NUL) && NoneOf(u, NUL)
    ensures var xs := [Prose(t), Empty("b", [], ""), Prose(u)];
            && AreSources(xs) && WriteAll(xs) == t + ("<b/>" + u)
            && MeantAll(xs) == [Leaf(Data(Decoded(t, Text))), Element("b", [], true, []), Leaf(Data(Decoded(u, Text)))]
  {
    hide Decoded, NoneOf, IsTagName, WriteAll, MeantAll, AreSources;
    Names();
    NoBlank();
    var b := Empty("b", [], "");
    assert Write(b) == "<b/>" by { NoSettings(); }
    OneWritten(Prose(u));
    NextWritten(b, [Prose(u)]);
    NextWritten(Prose(t), [b] + [Prose(u)]);
    assert [Prose(t)] + ([b] + [Prose(u)]) == [Prose(t), b, Prose(u)];
    NoSettings();
  }

  lemma {:induction false} Names()
    ensures IsTagName("a") && IsTagName("b")
  {
  }

  lemma {:induction false} ThreeItems(t: string, u: string)
    ensures var items := [Leaf(Data(t)), Element("b", [], true, []), Leaf(Data(u))];
            TextOf(items) == t + u && KidsOf(items, 0) == [Xml("b", [], "", [], |t|)]
  {
    var b := Element("b", [], true, []);
    var items := [Leaf(Data(t)), b, Leaf(Data(u))];
    assert items[1..] == [b, Leaf(Data(u))] && items[1..][1..] == [Leaf(Data(u))] && [Leaf(Data(u))][1..] == [];
    assert TextOf([Leaf(Data(u))]) == u && KidsOf([Leaf(Data(u))], |t|) == [];
    assert TextOf([b, Leaf(Data(u))]) == u && KidsOf([b, Leaf(Data(u))], |t|) == [TreeOf(b, |t|)];
    assert TreeOf(b, |t|) == Xml("b", [], "", [], |t|);
  }

  // ------------------------------------------------------------------------------------ what is rejected

  /** A document from its first markup on; the last character has made room for the terminator. */
  lemma {:induction false} FirstMarkup(m: string, last: char)
    requires NoneOf(m, NUL)
    ensures Parse("<" + (m + [last])) == Build(MarkupTokens(m, last), Before)
  {
    hide MarkupTokens, Tokens, Build, Parse, CString;
    var s := "<" + (m + [last]);
    ParseIs(s);
    assert s[..|s| - 1] == "<" + m;
    NoneOfConcat("<", m, NUL);
    LtNoNul();
    NoNulKept("<" + m, "");
    NoNulKept("", "");
    assert "<" + m + "" == "<" + m && "" + "" == "";
    assert CString("") == "" by { EmptyCString(); }
    MarkupNext(m, last);
  }

  lemma {:induction false} EmptyCString()
    ensures CString("") == ""
  {
  }

  /** The same inside a root element. */
  lemma {:induction false} SecondMarkup(m: string, last: char)
    requires NoneOf(m, NUL)
    ensures Parse("<a><" + (m + [last])) == Build(MarkupTokens(m, last), Inside([], Xml("a", [], "", [], 0)))
  {
    hide MarkupTokens, Tokens, Build, Parse;
    Names();
    NoBlank();
    var t := "a" + (">" + ("<" + m));
    NoneOfConcat("a><", m, NUL);
    assert t == "a><" + m;
    assert NoneOf("a><", NUL);
    FirstMarkup(t, last);
    assert "<a><" + (m + [last]) == "<" + (t + [last]);
    NoSettings();
    TagReads("a", [], "", ">" + ("<" + m), last);
    assert "a" + ("" + ("" + (">" + ("<" + m)))) == t;
    TokenThen("a", Open("a", [], false), "<" + m, last);
    MarkupNext(m, last);
    BuildOne(Open("a", [], false), MarkupTokens(m, last), Before);
  }

  /** Markup that is wrong ends the parse. */
  lemma {:induction false} BadMarkup(m: string, last: char, st: State)
    requires ReadMarkup(m, last).token.Bad?
    ensures var t := ReadMarkup(m, last).token;
            Build(MarkupTokens(m, last), st) == Failed(if t.inTag && st.After? then OutsideRoot else t.error)
  {
    hide ReadMarkup, Tokens;
    BuildOne(ReadMarkup(m, last).token, [], st);
    assert [ReadMarkup(m, last).token] + [] == [ReadMarkup(m, last).token];
  }

  lemma {:induction false} StrStrNone(s: string, pat: string)
    requires pat != "" && Lacks(s, pat)
    ensures StrStr(s, pat) == |s|
  {
    assert s[0..] == s;
    if s != "" {
      LacksLater(s, pat, 1);
      StrStrNone(s[1..], pat);
    }
  }

  lemma {:induction false} LacksInit(s: string, pat: string)
    requires s != "" && Lacks(s, pat)
    ensures Lacks(s[..|s| - 1], pat)
  {
    var t := s[..|s| - 1];
    forall i | 0 <= i <= |t|
      ensures !(pat <= t[i..])
    {
      assert !(pat <= s[i..]) && s[i..] == t[i..] + s[|t|..];
    }
  }

  /** Text without markup has no root. */
  lemma {:induction false} NoRoot(s: string)
    requires NoneOf(s, "<") && NoneOf(s, NUL) && (s != "" ==> Unmarked(s))
    ensures Parse(s) == Failed(RootMissing)
  {
    if s != "" {
      hide Parse, CString, Tokens;
      ParseIs(s);
      NoTokens(s);
      WholeCString(s);
    }
  }

  lemma {:induction false} OpenMarkup(lead: string, c: string)
    requires c != "" && NoneOf(lead, NUL) && NoneOf(c, NUL)
    requires ReadMarkup(lead + c[..|c| - 1], c[|c| - 1]).token.Bad?
    requires !ReadMarkup(lead + c[..|c| - 1], c[|c| - 1]).token.inTag
    ensures var error := ReadMarkup(lead + c[..|c| - 1], c[|c| - 1]).token.error;
            Parse("<" + (lead + c)) == Failed(error) == Parse("<a><" + (lead + c))
  {
    hide Parse, ReadMarkup, MarkupTokens, Build;
    var init, last := c[..|c| - 1], c[|c| - 1];
    assert c == init + [last];
    NoneOfConcat(init, [last], NUL);
    NoneOfConcat(lead, init, NUL);
    assert lead + c == (lead + init) + [last];
    FirstMarkup(lead + init, last);
    BadMarkup(lead + init, last, Before);
    SecondMarkup(lead + init, last);
    BadMarkup(lead + init, last, Inside([], Xml("a", [], "", [], 0)));
  }

  lemma {:induction false} OpenKinds(init: string, last: char)
    ensures StrStr(init, "--") == |init| ==> ReadMarkup("!--" + init, last).token == Bad(UnclosedComment, false)
    ensures StrStr(init, "]]>") == |init| ==> ReadMarkup("![CDATA[" + init, last).token == Bad(UnclosedSection, false)
    ensures Cspn(init, "[]>") == |init| && last != '>' ==>
              ReadMarkup("!DOCTYPE" + init, last).token == Bad(UnclosedDoctype, false)
    ensures init != "" && init[0] != '>' && Cspn(init, "?") == |init| ==>
              ReadMarkup("?" + init, last).token == Bad(UnclosedInstruction, false)
  {
    hide ReadMarkup, StrStr, Cspn, Decoded;
    Kinds(init, last);
    DoctypeIs(init, last);
    InstructionIs(init, last);
  }

  lemma {:induction false} LeadsNoNul()
    ensures NoneOf("!--", NUL) && NoneOf("![CDATA[", NUL) && NoneOf("!DOCTYPE", NUL) && NoneOf("?", NUL)
  {
  }

  lemma {:induction false} CommentStaysOpen(c: string)
    requires c != "" && Lacks(c, "--") && NoneOf(c, NUL)
    ensures Parse("<!--" + c) == Failed(UnclosedComment)
  {
    hide *;
    LacksInit(c, "--");
    StrStrNone(c[..|c| - 1], "--");
    OpenKinds(c[..|c| - 1], c[|c| - 1]);
    LeadsNoNul();
    OpenMarkup("!--", c);
    assert "<!--" + c == "<" + ("!--" + c);
  }

  lemma {:induction false} SectionStaysOpen(t: string)
    requires t != "" && Lacks(t, "]]>") && NoneOf(t, NUL)
    ensures Parse("<a><![CDATA[" + t) == Failed(UnclosedSection)
  {
    hide *;
    LacksInit(t, "]]>");
    StrStrNone(t[..|t| - 1], "]]>");
    OpenKinds(t[..|t| - 1], t[|t| - 1]);
    LeadsNoNul();
    OpenMarkup("![CDATA[", t);
    assert "<a><![CDATA[" + t == "<a><" + ("![CDATA[" + t);
  }

  lemma {:induction false} NoneInit(s: string, chars: string)
    requires s != "" && NoneOf(s, chars)
    ensures Cspn(s[..|s| - 1], chars) == |s| - 1 && s[|s| - 1] !in chars
  {
    CspnIs(s[..|s| - 1], chars, |s| - 1);
  }

  lemma {:induction false} InstructionStaysOpen(p: string)
    requires |p| > 1 && p[0] != '>' && NoneOf(p, "?") && NoneOf(p, NUL)
    ensures Parse("<?" + p) == Failed(UnclosedInstruction)
  {
    hide *;
    NoneInit(p, "?");
    OpenKinds(p[..|p| - 1], p[|p| - 1]);
    LeadsNoNul();
    OpenMarkup("?", p);
    assert "<?" + p == "<" + ("?" + p);
  }

  lemma {:induction false} DoctypeStaysOpen(d: string)
    requires d != "" && NoneOf(d, "[]>") && NoneOf(d, NUL)
    ensures Parse("<!DOCTYPE" + d) == Failed(UnclosedDoctype)
  {
    hide *;
    NoneInit(d, "[]>");
    OpenKinds(d[..|d| - 1], d[|d| - 1]);
    LeadsNoNul();
    OpenMarkup("!DOCTYPE", d);
    assert "<!DOCTYPE" + d == "<" + ("!DOCTYPE" + d);
  }

  /** Nothing else may follow a `<`. */
  lemma {:induction false} StrayBracket(m: string)
    requires |m| > 1 && NoneOf(m, NUL) && m[0] as int < 0x100 && !StartsName(m[0]) && m[0] !in "/!?"
    ensures Parse("<" + m) == Failed(UnexpectedLt)
  {
    hide Parse;
    var init, last := m[..|m| - 1], m[|m| - 1];
    FirstMarkup(init, last);
    BadMarkup(init, last, Before);
    assert m == init + [last];
  }

  /** The value of an attribute without its closing quote. */
  lemma {:induction false} QuoteStaysOpen(q: char, v: string)
    requires v != "" && (q == '"' || q == '\'') && NoneOf(v, [q]) && NoneOf(v, NUL)
    ensures Parse("<a b=" + ([q] + v)) == Failed(MissingQuote)
  {
    hide Parse, SkipSpace, ReadMarkup;
    var init, last := v[..|v| - 1], v[|v| - 1];
    var m := "a b=" + ([q] + init);
    OpenQuote(q, init, last);
    NoneOfConcat("a b=" + [q], init, NUL);
    assert m == ("a b=" + [q]) + init;
    FirstMarkup(m, last);
    BadMarkup(m, last, Before);
    assert "<a b=" + ([q] + v) == "<" + (m + [last]);
  }

  lemma {:induction false} OpenQuote(q: char, init: string, last: char)
    requires (q == '"' || q == '\'') && NoneOf(init, [q])
    ensures ReadMarkup("a b=" + ([q] + init), last) == Scan(Bad(MissingQuote, true), "")
  {
    hide SkipSpace, Cspn, ReadAttr;
    var s := "b=" + ([q] + init);
    var m := "a b=" + ([q] + init);
    assert m[0] == 'a' && m[..1] == "a" && m[1..] == " " + s;
    CspnIs(m, NAME_END, 1);
    SkipsOne(s);
    OpenValue(q, init);
    assert ReadAttrs(s) == NoQuotes;
  }

  lemma {:induction false} OpenValue(q: char, init: string)
    requires (q == '"' || q == '\'') && NoneOf(init, [q])
    ensures ReadAttr("b=" + ([q] + init)) == NoQuote
  {
    hide SkipSpace, Cspn, ReadValue;
    var t := [q] + init;
    var s := "b=" + t;
    CspnIs(s, ATTR_END, 1);
    assert s[..1] == "b" && s[2..] == t;
    OpenRest("b", q, init);
  }

  lemma {:induction false} OpenRest(name: string, q: char, init: string)
    requires (q == '"' || q == '\'') && NoneOf(init, [q])
    ensures ReadValue(name, [q] + init) == NoQuote
  {
    hide SkipSpace, Cspn, Decoded;
    var t := [q] + init;
    SpnIs(t, " \t\r\n=", 0);
    assert t[0..] == t && t[1..] == init;
    CspnIs(init, [q], |init|);
  }

  /** A closing tag of another name, and a tag that stays open. */
  lemma {:induction false} WrongEnd(n: string, m: string)
    requires IsTagName(n) && IsTagName(m) && n != m
    ensures Parse("<" + (n + ("></" + (m + ">")))) == Failed(UnexpectedClose(m))
  {
    hide *;
    NamesNoNul(n, m);
    FirstMarkup(n + (">" + ("<" + ("/" + m))), '>');
    assert "<" + ((n + (">" + ("<" + ("/" + m)))) + ">") == "<" + (n + ("></" + (m + ">")));
    OpensTag(n, "<" + ("/" + m), '>');
    EndsTag(m, Inside([], Xml(n, [], "", [], 0)));
  }

  lemma {:induction false} TagStaysOpen(n: string, t: string)
    requires IsTagName(n) && t != "" && NoneOf(t, "<") && NoneOf(t, NUL)
    ensures Parse("<" + (n + (">" + t))) == Failed(UnclosedTag(n))
  {
    hide *;
    var init, last := t[..|t| - 1], t[|t| - 1];
    assert t == init + [last];
    NoneOfConcat(init, [last], NUL);
    OpenNoNul(n, init);
    FirstMarkup(n + (">" + init), last);
    assert "<" + ((n + (">" + init)) + [last]) == "<" + (n + (">" + t));
    OpensTag(n, init, last);
    NoTokens(t);
    StopsInside(t, Xml(n, [], "", [], 0));
  }

  lemma {:induction false} OpenNoNul(n: string, t: string)
    requires IsTagName(n) && NoneOf(t, NUL)
    ensures NoneOf(n + (">" + t), NUL)
  {
    hide IsTagStart;
  }

  lemma {:induction false} StopsInside(t: string, x: Xml)
    requires t != "" && TopTokens(t) == []
    ensures Build(Tokens(t[..|t| - 1], t[|t| - 1]), Inside([], x)) == Failed(UnclosedTag(x.name))
  {
    hide Tokens;
  }

  lemma {:induction false} NamesNoNul(n: string, m: string)
    requires IsTagName(n) && IsTagName(m)
    ensures NoneOf(n + (">" + ("<" + ("/" + m))), NUL)
  {
    hide IsTagStart;
  }

  lemma {:induction false} OpensTag(n: string, r: string, last: char)
    requires IsTagName(n)
    ensures Build(MarkupTokens(n + (">" + r), last), Before)
              == Build(Tokens(r, last), Inside([], Xml(n, [], "", [], 0)))
  {
    hide Build, MarkupTokens, Tokens, ReadMarkup, IsTagName;
    NoSettings();
    NoBlank();
    TagReads(n, [], "", ">" + r, last);
    assert "" + ("" + (">" + r)) == ">" + r;
    TokenThen(n, Open(n, [], false), r, last);
    BuildOne(Open(n, [], false), Tokens(r, last), Before);
  }

  lemma {:induction false} EndsTag(m: string, st: State)
    requires IsTagName(m) && st.Inside? && st.cur.name != m
    ensures Build(Tokens("<" + ("/" + m), '>'), st) == Failed(UnexpectedClose(m))
  {
    hide Build, MarkupTokens, Tokens, IsTagName;
    NoBlank();
    EndLast(m, "");
    assert m + ("" + "") == m && [Close(m)] + [] == [Close(m)];
    MarkupNext("/" + m, '>');
    BuildOne(Close(m), [], st);
  }

  /** Nothing but comments, instructions and blanks may follow the root. */
  lemma {:induction false} SecondRoot(n: string, m: string)
    requires IsTagName(n) && IsTagName(m)
    ensures Parse("<" + (n + ("/><" + (m + "/>")))) == Failed(OutsideRoot)
  {
    hide *;
    RootsNoNul(n, m);
    FirstMarkup((n + "/") + (">" + ("<" + (m + "/"))), '>');
    assert "<" + (((n + "/") + (">" + ("<" + (m + "/")))) + ">") == "<" + (n + ("/><" + (m + "/>")));
    SlashTag(n, "<" + (m + "/"), '>');
    SlashTagLast(m, Xml(n, [], "", [], 0));
  }

  lemma {:induction false} RootsNoNul(n: string, m: string)
    requires IsTagName(n) && IsTagName(m)
    ensures NoneOf((n + "/") + (">" + ("<" + (m + "/"))), NUL)
  {
    hide IsTagStart;
  }

  lemma {:induction false} SlashTag(n: string, r: string, last: char)
    requires IsTagName(n)
    ensures Build(MarkupTokens((n + "/") + (">" + r), last), Before)
         == Build(Tokens(r, last), After(Xml(n, [], "", [], 0)))
  {
    hide Build, MarkupTokens, Tokens, ReadMarkup, IsTagName;
    NoSettings();
    NoBlank();
    Writing.EmptyReads(n, [], "", ">" + r, last);
    assert n + ("" + ("" + ("/" + (">" + r)))) == (n + "/") + (">" + r);
    TokenThen(n + "/", Open(n, [], true), r, last);
    BuildOne(Open(n, [], true), Tokens(r, last), Before);
  }

  lemma {:induction false} SlashTagLast(m: string, root: Xml)
    requires IsTagName(m)
    ensures Build(Tokens("<" + (m + "/"), '>'), After(root)) == Failed(OutsideRoot)
  {
    hide Build, MarkupTokens, Tokens, ReadMarkup, IsTagName;
    NoSettings();
    NoBlank();
    Writing.EmptyReads(m, [], "", "", '>');
    assert m + ("" + ("" + ("/" + ""))) == m + "/";
    TokenLast(m + "/", Open(m, [], true));
    MarkupNext(m + "/", '>');
    BuildOne(Open(m, [], true), [], After(root));
    assert [Open(m, [], true)] + [] == [Open(m, [], true)];
  }

  /** Every name of XML can be the name of a tag and of an attribute. */
  lemma {:induction false} XmlNames(s: string)
    requires s != "" && StartsName(s[0]) && forall i | 0 <= i < |s| :: InName(s[i])
    ensures IsTagName(s) && IsAttrName(s)
  {
  }
}
