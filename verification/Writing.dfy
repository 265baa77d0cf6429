/** Documents as people write them: with prologs, comments, sections, either kind of quotes and blanks
    where they are allowed.  The parser reads each as what it stands for. */
module Writing {
  import opened Chars
  import opened Decoding
  import opened Escaping
  import opened Markup
  import opened Nesting
  import opened Parsing
  import opened RoundTrip
  import opened XmlTree
  import Utf16

  predicate IsBlank(s: string) {
    forall i | 0 <= i < |s| :: s[i] in " \t\r\n"
  }

  /** `pat` is nowhere in `s`. */
  predicate Lacks(s: string, pat: string) {
    forall i | 0 <= i <= |s| :: !(pat <= s[i..])
  }

  /** An attribute with its blanks: in front of the name, of the equals sign and of the value. */
  datatype Setting = Setting(lead: string, name: string, before: string, after: string, quote: char, raw: string)

  datatype Source =
    | Prose(raw: string)
    | Verbatim(raw: string)
    | Remark(raw: string)
    | Instruction(raw: string)
    | Doctype(raw: string)
    | Empty(name: string, settings: seq<Setting>, tail: string)
    | Full(name: string, settings: seq<Setting>, tail: string, inner: seq<Source>, endTail: string)

  // ----------------------------------------------------------------------------------- what is written

  function WriteSetting(a: Setting): string {
    a.lead + (a.name + (a.before + ("=" + (a.after + ([a.quote] + (a.raw + [a.quote]))))))
  }

  function WriteSettings(settings: seq<Setting>): string {
    if settings == [] then "" else WriteSetting(settings[0]) + WriteSettings(settings[1..])
  }

  /** What stands between `<` and `>`. */
  function Body(x: Source): string
    requires !x.Prose?
    decreases x, 0
  {
    match x
    case Verbatim(raw) => "![CDATA[" + (raw + "]]")
    case Remark(raw) => "!--" + (raw + "--")
    case Instruction(raw) => "?" + (raw + "?")
    case Doctype(raw) => "!DOCTYPE" + raw
    case Empty(name, settings, tail) => name + (WriteSettings(settings) + (tail + "/"))
    case Full(name, settings, tail, inner, endTail) =>
      name + (WriteSettings(settings) + (tail + (">" + (WriteAll(inner) + ("<" + ("/" + (name + endTail)))))))
  }

  function Write(x: Source): string
    decreases x, 1
  {
    if x.Prose? then x.raw else "<" + (Body(x) + ">")
  }

  function WriteAll(xs: seq<Source>): string
    decreases xs
  {
    if xs == [] then "" else Write(xs[0]) + WriteAll(xs[1..])
  }

  // ---------------------------------------------------------------------------------- what is allowed

  predicate IsSetting(a: Setting) {
    && a.lead != "" && IsBlank(a.lead) && IsAttrName(a.name) && IsBlank(a.before) && IsBlank(a.after)
    && (a.quote == '"' || a.quote == '\'') && NoneOf(a.raw, [a.quote]) && NoneOf(a.raw, NUL)
  }

  predicate AreSettings(settings: seq<Setting>) {
    forall i | 0 <= i < |settings| :: IsSetting(settings[i])
  }

  predicate IsSource(x: Source)
    decreases x
  {
    match x
    case Prose(raw) => raw != "" && NoneOf(raw, "<") && NoneOf(raw, NUL)
    case Verbatim(raw) => Lacks(raw, "]]>") && NoneOf(raw, NUL)
    case Remark(raw) => Lacks(raw, "--") && (raw != "" ==> raw[|raw| - 1] != '-') && NoneOf(raw, NUL)
    case Instruction(raw) => (raw != "" ==> raw[0] != '>') && Lacks(raw, "?>") && NoneOf(raw, NUL)
    case Doctype(raw) => NoneOf(raw, "[>") && NoneOf(raw, NUL)
    case Empty(name, settings, tail) => IsTagName(name) && AreSettings(settings) && IsBlank(tail)
    case Full(name, settings, tail, inner, endTail) =>
      IsTagName(name) && AreSettings(settings) && IsBlank(tail) && AreSources(inner) && IsBlank(endTail)
  }

  /** No two pieces of prose stand side by side, for they would be one. */
  predicate AreSources(xs: seq<Source>)
    decreases xs
  {
    xs == [] || (IsSource(xs[0]) && AreSources(xs[1..]) && (xs[0].Prose? && |xs| > 1 ==> !xs[1].Prose?))
  }

  // ------------------------------------------------------------------------------------ what it means

  ghost function MeantAttrs(settings: seq<Setting>): seq<Attr> {
    if settings == [] then []
    else [Attr(settings[0].name, Decoded(settings[0].raw, Attribute))] + MeantAttrs(settings[1..])
  }

  ghost function Meant(x: Source): Item
    decreases x
  {
    match x
    case Prose(raw) => Leaf(Data(Decoded(raw, Text)))
    case Verbatim(raw) => Leaf(Token.Section(Decoded(raw, CData)))
    case Empty(name, settings, _) => Element(name, MeantAttrs(settings), true, [])
    case Full(name, settings, _, inner, _) => Element(name, MeantAttrs(settings), false, MeantAll(inner))
    case _ => Leaf(Skip)
  }

  ghost function MeantAll(xs: seq<Source>): seq<Item>
    decreases xs
  {
    if xs == [] then [] else [Meant(xs[0])] + MeantAll(xs[1..])
  }

  // -------------------------------------------------------------------------------------- attributes

  lemma {:induction false} SpnIs(s: string, accept: string, n: nat)
    requires n <= |s| && (forall i | 0 <= i < n :: s[i] in accept) && (n < |s| ==> s[n] !in accept)
    ensures Spn(s, accept) == n
  {
    if n > 0 {
      SpnIs(s[1..], accept, n - 1);
    }
  }

  lemma {:induction false} SkipsBlank(b: string, s: string)
    requires IsBlank(b) && s != "" && !IsSpace(s[0])
    ensures SkipSpace(b + s) == s
    decreases |b|
  {
    if b == "" {
      assert b + s == s && SpaceSpan(s) == 0;
    } else {
      SkipsBlank(b[1..], s);
      assert (b + s)[1..] == b[1..] + s;
      assert IsSpace((b + s)[0]);
      assert SpaceSpan(b + s) == 1 + SpaceSpan(b[1..] + s);
      assert (b + s)[SpaceSpan(b + s)..] == (b + s)[1..][SpaceSpan(b[1..] + s)..];
    }
  }

  lemma {:induction false} SettingValue(name: string, lead: string, quote: char, raw: string, r: string)
    requires (quote == '"' || quote == '\'') && NoneOf(raw, [quote])
    requires forall i | 0 <= i < |lead| :: lead[i] in " \t\r\n="
    ensures ReadValue(name, lead + ([quote] + (raw + ([quote] + r))))
         == AttrScan(Attr(name, Decoded(raw, Attribute)), SkipSpace(r))
  {
    hide Decoded, Cspn, SkipSpace;
    var t := [quote] + (raw + ([quote] + r));
    var s := lead + t;
    assert s[|lead|] == quote;
    SpnIs(s, " \t\r\n=", |lead|);
    assert s[|lead|..] == t && t[0] == quote && t[1..] == raw + ([quote] + r);
    assert t[1..][..|raw|] == raw && t[|raw| + 2..] == r;
    CspnIs(t[1..], [t[0]], |raw|);
  }

  lemma {:induction false} SettingReads(a: Setting, r: string)
    requires IsSetting(a)
    ensures WriteSetting(a) + r == a.lead + (WriteSetting(a) + r)[|a.lead|..]
    ensures var s := (WriteSetting(a) + r)[|a.lead|..];
            && s != "" && !IsSpace(s[0]) && s[0] !in "/>"
            && ReadAttr(s) == AttrScan(Attr(a.name, Decoded(a.raw, Attribute)), SkipSpace(r))
  {
    hide Decoded, Cspn, SkipSpace, ReadValue;
    var v := [a.quote] + (a.raw + ([a.quote] + r));
    var gap := a.before + ("=" + a.after);
    var s := a.name + (gap + v);
    assert WriteSetting(a) + r == a.lead + s;
    assert (WriteSetting(a) + r)[|a.lead|..] == s;
    var k := |a.name|;
    assert s[0] == a.name[0] && a.name[0] !in ATTR_END;
    assert s[..k] == a.name && s[k] == gap[0] && s[k + 1..] == gap[1..] + v;
    assert gap[0] in " \t\r\n=";
    CspnIs(s, ATTR_END, k);
    SettingValue(a.name, gap[1..], a.quote, a.raw, r);
  }

  /** The attributes up to a bracket or slash. */
  lemma {:induction false} SettingsRead(settings: seq<Setting>, tail: string, r: string)
    requires AreSettings(settings) && IsBlank(tail) && r != "" && r[0] in "/>"
    ensures ReadAttrs(SkipSpace(WriteSettings(settings) + (tail + r))) == AttrsScan(MeantAttrs(settings), r)
  {
    hide SkipSpace, ReadAttr, WriteSetting, Decoded, IsSetting;
    if settings == [] {
      assert WriteSettings(settings) + (tail + r) == tail + r;
      SkipsBlank(tail, r);
    } else {
      var a, more := settings[0], WriteSettings(settings[1..]) + (tail + r);
      assert IsSetting(a);
      assert WriteSettings(settings) + (tail + r) == WriteSetting(a) + more;
      SettingReads(a, more);
      var s := (WriteSetting(a) + more)[|a.lead|..];
      assert IsBlank(a.lead) by { SettingLead(a); }
      SkipsBlank(a.lead, s);
      SettingsRead(settings[1..], tail, r);
    }
  }

  lemma {:induction false} SettingLead(a: Setting)
    requires IsSetting(a)
    ensures a.lead != "" && IsBlank(a.lead)
  {
  }

  // ------------------------------------------------------------------------------------------ markup

  /** Behind a piece of markup: its `>`, or nothing where that has made room for the terminator. */
  predicate AtRest(r: string, last: char) {
    if r == "" then last == '>' else r[0] == '>'
  }

  lemma {:induction false} StrStrIs(s: string, pat: string, n: nat)
    requires pat != "" && n <= |s| && pat <= s[n..] && forall i | 0 <= i < n :: !(pat <= s[i..])
    ensures StrStr(s, pat) == n
  {
    assert s[0..] == s;
    if n > 0 {
      forall i | 0 <= i < n - 1
        ensures !(pat <= s[1..][i..])
      {
        assert s[1..][i..] == s[i + 1..];
      }
      assert s[1..][n - 1..] == s[n..];
      StrStrIs(s[1..], pat, n - 1);
    }
  }

  /** What is behind a text does not make for a pattern within it. */
  lemma {:induction false} NotBefore(raw: string, more: string, pat: string, i: nat)
    requires Lacks(raw, pat) && i + |pat| <= |raw|
    ensures !(pat <= (raw + more)[i..])
  {
    var t := (raw + more)[i..];
    assert t[..|pat|] == raw[i..][..|pat|];
  }

  /** Which reader a piece of markup goes to. */
  lemma {:induction false} Kinds(t: string, last: char)
    ensures ReadMarkup("/" + t, last) == ReadClose(t, last)
    ensures ReadMarkup("!--" + t, last) == ReadComment(t, last)
    ensures ReadMarkup("![CDATA[" + t, last) == ReadSection(t)
    ensures ReadMarkup("!DOCTYPE" + t, last) == ReadDoctype(t, last)
    ensures t != "" && t[0] != '>' ==> ReadMarkup("?" + t, last) == ReadInstruction(t, last)
  {
    hide ReadClose, ReadComment, ReadSection, ReadDoctype, ReadInstruction;
    assert ("/" + t)[1..] == t && ("?" + t)[1..] == t;
    assert ("!--" + t)[3..] == t && ("!--" + t)[1] == '-';
    assert ("![CDATA[" + t)[8..] == t && ("![CDATA[" + t)[1] == '[';
    assert ("!DOCTYPE" + t)[8..] == t && ("!DOCTYPE" + t)[1] == 'D';
  }

  lemma {:induction false} VerbatimReads(raw: string, r: string, last: char)
    requires Lacks(raw, "]]>") && r != "" && r[0] == '>'
    ensures ReadMarkup("![CDATA[" + (raw + ("]]" + r)), last) == Scan(Token.Section(Decoded(raw, CData)), r)
  {
    hide Decoded, StrStr, ReadMarkup, Lacks;
    var t := raw + ("]]" + r);
    Kinds(t, last);
    SectionEnds(raw, r);
    assert t[..|raw|] == raw && t[|raw| + 2..] == r;
  }

  lemma {:induction false} SectionEnds(raw: string, r: string)
    requires Lacks(raw, "]]>") && r != "" && r[0] == '>'
    ensures StrStr(raw + ("]]" + r), "]]>") == |raw|
  {
    hide Lacks;
    var end := "]]" + r;
    var t := raw + end;
    forall i | 0 <= i < |raw|
      ensures !("]]>" <= t[i..])
    {
      if i + 3 <= |raw| {
        NotBefore(raw, end, "]]>", i);
      } else {
        assert t[i..][2] == ']';
      }
    }
    assert t[|raw|..] == end && end[2] == '>';
    StrStrIs(t, "]]>", |raw|);
  }

  lemma {:induction false} RemarkReads(raw: string, r: string, last: char)
    requires Lacks(raw, "--") && (raw != "" ==> raw[|raw| - 1] != '-') && AtRest(r, last)
    ensures ReadMarkup("!--" + (raw + ("--" + r)), last) == Scan(Skip, r)
  {
    hide StrStr, ReadMarkup;
    var t := raw + ("--" + r);
    Kinds(t, last);
    RemarkEnds(raw, r);
    assert t[|raw| + 2..] == r;
  }

  lemma {:induction false} RemarkEnds(raw: string, r: string)
    requires Lacks(raw, "--") && (raw != "" ==> raw[|raw| - 1] != '-')
    ensures StrStr(raw + ("--" + r), "--") == |raw|
  {
    hide Lacks;
    var end := "--" + r;
    var t := raw + end;
    forall i | 0 <= i < |raw|
      ensures !("--" <= t[i..])
    {
      if i + 2 <= |raw| {
        NotBefore(raw, end, "--", i);
      } else {
        assert t[i..][0] == raw[|raw| - 1];
      }
    }
    assert t[|raw|..] == end;
    StrStrIs(t, "--", |raw|);
  }

  lemma {:induction false} LacksLater(s: string, pat: string, k: nat)
    requires Lacks(s, pat) && k <= |s|
    ensures Lacks(s[k..], pat)
  {
    forall i | 0 <= i <= |s[k..]|
      ensures !(pat <= s[k..][i..])
    {
      assert s[k..][i..] == s[k + i..];
    }
  }

  lemma {:induction false} InstructionReads(raw: string, r: string, last: char)
    requires Lacks(raw, "?>") && (raw != "" ==> raw[0] != '>') && AtRest(r, last)
    ensures ReadInstruction(raw + ("?" + r), last) == Scan(Skip, r)
    decreases |raw|
  {
    hide Lacks, Cspn, ReadInstruction, NoneOf;
    var s := raw + ("?" + r);
    var n := Cspn(raw, "?");
    CspnOver(raw, "?", r);
    InstructionIs(s, last);
    InstructionIs(r, last);
    if n == |raw| {
      assert s[n + 1..] == r;
    } else {
      assert s == raw[..n + 1] + (raw[n + 1..] + ("?" + r));
      assert s[n + 1..] == raw[n + 1..] + ("?" + r);
      LacksLater(raw, "?>", n + 1);
      NoEndAt(raw, n);
      InstructionReads(raw[n + 1..], r, last);
    }
  }

  /** A search for any of some characters in a text that goes on with one of them. */
  lemma {:induction false} CspnOver(s: string, stop: string, r: string)
    requires |stop| == 1
    ensures Cspn(s + (stop + r), stop) == Cspn(s, stop)
  {
    var n := Cspn(s, stop);
    CspnIs(s + (stop + r), stop, n);
  }

  lemma {:induction false} NoEndAt(s: string, i: nat)
    requires Lacks(s, "?>") && i < |s| && s[i] == '?'
    ensures i + 1 < |s| ==> s[i + 1] != '>'
  {
    assert !("?>" <= s[i..]);
  }

  lemma {:induction false} DoctypeReads(raw: string, r: string, last: char)
    requires NoneOf(raw, "[>") && AtRest(r, last)
    ensures ReadMarkup("!DOCTYPE" + (raw + r), last) == Scan(Skip, r)
  {
    hide *;
    Kinds(raw + r, last);
    DoctypeEnds(raw, r, last);
  }

  lemma {:induction false} DoctypeEnds(raw: string, r: string, last: char)
    requires NoneOf(raw, "[>") && AtRest(r, last)
    ensures ReadDoctype(raw + r, last) == Scan(Skip, r)
    decreases |raw|
  {
    hide Cspn, ReadDoctype;
    var t := raw + r;
    var n := Cspn(raw, "[]>");
    DoctypeIs(t, last);
    if n == |raw| {
      assert t[..n] == raw && t[n..] == r;
      CspnIs(t, "[]>", n);
    } else {
      assert raw[n] == ']' && t[n] == raw[n];
      CspnIs(t, "[]>", n);
      assert t[n..][1..] == raw[n + 1..] + r;
      DoctypeEnds(raw[n + 1..], r, last);
    }
  }

  /** An opening tag up to the slash or bracket that ends it. */
  lemma {:induction false} TagReads(name: string, settings: seq<Setting>, tail: string, end: string, last: char)
    requires IsTagName(name) && AreSettings(settings) && IsBlank(tail) && end != "" && end[0] in "/>"
    ensures ReadMarkup(name + (WriteSettings(settings) + (tail + end)), last)
         == EndTag(name, MeantAttrs(settings), end, last)
  {
    hide AreSettings, WriteSettings, ReadAttrs, MeantAttrs, SkipSpace, Cspn;
    var more := WriteSettings(settings) + (tail + end);
    var s := name + more;
    AfterName(settings, tail, end);
    assert s[0] == name[0] && s[..|name|] == name && s[|name|..] == more;
    CspnIs(s, NAME_END, |name|);
    SettingsRead(settings, tail, end);
  }

  lemma {:induction false} AfterName(settings: seq<Setting>, tail: string, end: string)
    requires AreSettings(settings) && IsBlank(tail) && end != "" && end[0] in "/>"
    ensures var more := WriteSettings(settings) + (tail + end); more != "" && more[0] in NAME_END
  {
    if settings != [] {
      assert IsSetting(settings[0]);
    } else if tail == "" {
      assert WriteSettings(settings) + (tail + end) == end;
    }
  }

  lemma {:induction false} EndTagReads(name: string, blank: string, r: string, last: char)
    requires IsTagName(name) && IsBlank(blank) && AtRest(r, last)
    ensures ReadMarkup("/" + (name + (blank + r)), last) == Scan(Close(name), r)
  {
    hide *;
    var t := name + (blank + r);
    Kinds(t, last);
    CloseReads(name, blank, r, last);
  }

  lemma {:induction false} CloseReads(name: string, blank: string, r: string, last: char)
    requires IsTagName(name) && IsBlank(blank) && AtRest(r, last)
    ensures ReadClose(name + (blank + r), last) == Scan(Close(name), r)
  {
    hide Cspn, Spn, IsTagName, IsBlank, IsSpace;
    var more := blank + r;
    var t := name + more;
    CloseSpan(name, blank, r);
    assert t[..|name|] == name && t[|name|..] == more && more[|blank|..] == r;
  }

  lemma {:induction false} CloseSpan(name: string, blank: string, r: string)
    requires IsTagName(name) && IsBlank(blank) && (r == "" || r[0] == '>')
    ensures Cspn(name + (blank + r), CLOSE_END) == |name|
    ensures blank == "" ==> blank + r == r && (r != "" ==> !IsSpace(r[0]))
    ensures blank != "" ==> IsSpace((blank + r)[0]) && (blank + r)[0] != '>' && Spn(blank + r, WS) == |blank|
  {
    hide Cspn, Spn, IsTagStart;
    var more := blank + r;
    var t := name + more;
    assert t[..|name|] == name && t[|name|..] == more;
    NameNoClose(name);
    CspnIs(t, CLOSE_END, |name|);
    if blank != "" {
      SpnIs(more, WS, |blank|);
    }
  }

  lemma {:induction false} NameNoClose(name: string)
    requires NoneOf(name, NAME_END)
    ensures NoneOf(name, CLOSE_END)
  {
    forall i | 0 <= i < |name|
      ensures name[i] !in CLOSE_END
    {
      assert name[i] !in NAME_END;
    }
  }

  // ----------------------------------------------------------------------------------------- content

  predicate MayEnd(x: Source) {
    !x.Prose? && !x.Verbatim?
  }

  lemma {:induction false} FlatOf(t: Token)
    ensures FlatAll([Leaf(t)]) == [t]
  {
  }

  /** The markup with what follows it. */
  lemma {:induction false} BodyThen(x: Source, r: string)
    requires !x.Prose? && !x.Full?
    ensures x.Verbatim? ==> Body(x) + r == "![CDATA[" + (x.raw + ("]]" + r))
    ensures x.Remark? ==> Body(x) + r == "!--" + (x.raw + ("--" + r))
    ensures x.Instruction? ==> Body(x) + r == "?" + (x.raw + ("?" + r))
    ensures x.Doctype? ==> Body(x) + r == "!DOCTYPE" + (x.raw + r)
    ensures x.Empty? ==> Body(x) + r == x.name + (WriteSettings(x.settings) + (x.tail + ("/" + r)))
  {
    hide WriteSettings;
  }

  ghost function LeafToken(x: Source): Token
    requires !x.Full?
  {
    Flat(Meant(x))[0]
  }

  lemma {:induction false} LeafTokens(x: Source)
    requires !x.Full?
    ensures Flat(Meant(x)) == [LeafToken(x)] && !LeafToken(x).Bad? && !LeafToken(x).Unmodelled?
    ensures x.Verbatim? ==> LeafToken(x) == Token.Section(Decoded(x.raw, CData))
    ensures x.Remark? || x.Instruction? || x.Doctype? ==> LeafToken(x) == Skip
    ensures x.Empty? ==> LeafToken(x) == Open(x.name, MeantAttrs(x.settings), true)
  {
    hide Decoded, MeantAttrs;
  }

  /** A piece of markup that is one token. */
  lemma {:induction false} LeafReads(x: Source, r: string, last: char)
    requires IsSource(x) && !x.Prose? && !x.Full? && AtRest(r, last) && (x.Verbatim? ==> r != "")
    ensures ReadMarkup(Body(x) + r, last) == Scan(LeafToken(x), r)
  {
    hide ReadMarkup, ReadInstruction, Decoded, Lacks, AreSettings, WriteSettings, MeantAttrs, IsTagName, IsBlank;
    hide Body, LeafToken, Write, WriteAll;
    BodyThen(x, r);
    LeafTokens(x);
    match x
    case Verbatim(raw) => VerbatimReads(raw, r, last);
    case Remark(raw) => RemarkReads(raw, r, last);
    case Instruction(raw) =>
      InstructionReads(raw, r, last);
      Kinds(raw + ("?" + r), last);
    case Doctype(raw) => DoctypeReads(raw, r, last);
    case Empty(name, settings, tail) => EmptyReads(name, settings, tail, r, last);
  }

  lemma {:induction false} EmptyReads(name: string, settings: seq<Setting>, tail: string, r: string, last: char)
    requires IsTagName(name) && AreSettings(settings) && IsBlank(tail) && AtRest(r, last)
    ensures ReadMarkup(name + (WriteSettings(settings) + (tail + ("/" + r))), last)
         == Scan(Open(name, MeantAttrs(settings), true), r)
  {
    hide ReadMarkup, AreSettings, WriteSettings, MeantAttrs, IsTagName, IsBlank;
    TagReads(name, settings, tail, "/" + r, last);
    assert ("/" + r)[1..] == r;
  }

  /** A token, and then the rest. */
  lemma {:induction false} TokenThen(s: string, t: Token, r: string, last: char)
    requires ReadMarkup(s + (">" + r), last) == Scan(t, ">" + r) && !t.Bad? && !t.Unmodelled?
    ensures MarkupTokens(s + (">" + r), last) == [t] + Tokens(r, last)
  {
    hide ReadMarkup, Tokens;
    assert (">" + r)[1..] == r;
  }

  lemma {:induction false} TokenLast(s: string, t: Token)
    requires ReadMarkup(s, '>') == Scan(t, "")
    ensures MarkupTokens(s, '>') == [t]
  {
    hide ReadMarkup, Tokens;
  }

  /** Markup with more behind it. */
  lemma {:induction false} MarkupReads(x: Source, r: string, last: char)
    requires IsSource(x) && !x.Prose?
    ensures MarkupTokens(Body(x) + (">" + r), last) == Flat(Meant(x)) + Tokens(r, last)
    decreases x, 1
  {
    hide ReadMarkup, Tokens, MarkupTokens, Decoded;
    if x.Full? {
      FullReads(x.name, x.settings, x.tail, x.inner, x.endTail, ">" + r, last);
      EndReads(x.name, x.endTail, r, last);
      FullBody(x, ">" + r);
      FlatFull(x);
    } else {
      LeafReads(x, ">" + r, last);
      LeafTokens(x);
      TokenThen(Body(x), LeafToken(x), r, last);
    }
  }

  /** Markup at the very end. */
  lemma {:induction false} MarkupEnds(x: Source)
    requires IsSource(x) && MayEnd(x)
    ensures MarkupTokens(Body(x), '>') == Flat(Meant(x))
  {
    hide ReadMarkup, Tokens, MarkupTokens, Decoded;
    assert Body(x) + "" == Body(x);
    if x.Full? {
      FullReads(x.name, x.settings, x.tail, x.inner, x.endTail, "", '>');
      EndLast(x.name, x.endTail);
      FullBody(x, "");
      FlatFull(x);
    } else {
      LeafReads(x, "", '>');
      LeafTokens(x);
      TokenLast(Body(x), LeafToken(x));
    }
  }

  lemma {:induction false} FullBody(x: Source, r: string)
    requires x.Full?
    ensures Body(x) + r == x.name + (WriteSettings(x.settings) + (x.tail + (">" + (WriteAll(x.inner)
              + ("<" + ("/" + (x.name + (x.endTail + r))))))))
  {
    hide WriteSettings, WriteAll;
  }

  lemma {:induction false} FlatFull(x: Source)
    requires x.Full?
    ensures Flat(Meant(x)) == [Open(x.name, MeantAttrs(x.settings), false)] + FlatAll(MeantAll(x.inner))
              + [Close(x.name)]
  {
    hide MeantAttrs, MeantAll, FlatAll;
  }

  /** A tag up to the name it is closed by. */
  lemma {:induction false} FullReads(name: string, settings: seq<Setting>, tail: string, inner: seq<Source>,
      endTail: string, r: string, last: char)
    requires IsTagName(name) && AreSettings(settings) && IsBlank(tail) && AreSources(inner)
    ensures MarkupTokens(name + (WriteSettings(settings) + (tail + (">" + (WriteAll(inner)
              + ("<" + ("/" + (name + (endTail + r)))))))), last)
         == [Open(name, MeantAttrs(settings), false)] + FlatAll(MeantAll(inner))
              + MarkupTokens("/" + (name + (endTail + r)), last)
    decreases inner, 2
  {
    hide ReadMarkup, Tokens, MarkupTokens, WriteSettings, MeantAttrs, WriteAll, MeantAll, FlatAll, AreSettings,
        IsTagName;
    var close := "/" + (name + (endTail + r));
    var more := WriteAll(inner) + ("<" + close);
    TagReads(name, settings, tail, ">" + more, last);
    var head := name + (WriteSettings(settings) + tail);
    assert name + (WriteSettings(settings) + (tail + (">" + more))) == head + (">" + more);
    TokenThen(head, Open(name, MeantAttrs(settings), false), more, last);
    InnerReads(inner, close, last);
  }

  lemma {:induction false} EndReads(name: string, endTail: string, r: string, last: char)
    requires IsTagName(name) && IsBlank(endTail)
    ensures MarkupTokens("/" + (name + (endTail + (">" + r))), last) == [Close(name)] + Tokens(r, last)
  {
    hide ReadMarkup, Tokens, MarkupTokens, IsTagName, IsBlank;
    EndTagReads(name, endTail, ">" + r, last);
    assert "/" + (name + (endTail + (">" + r))) == ("/" + (name + endTail)) + (">" + r);
    TokenThen("/" + (name + endTail), Close(name), r, last);
  }

  lemma {:induction false} EndLast(name: string, endTail: string)
    requires IsTagName(name) && IsBlank(endTail)
    ensures MarkupTokens("/" + (name + (endTail + "")), '>') == [Close(name)]
  {
    hide ReadMarkup, Tokens, MarkupTokens, IsTagName, IsBlank;
    EndTagReads(name, endTail, "", '>');
    TokenLast("/" + (name + (endTail + "")), Close(name));
  }

  /** Content up to the next markup behind it. */
  lemma {:induction false} InnerReads(xs: seq<Source>, tail: string, last: char)
    requires AreSources(xs)
    ensures Tokens(WriteAll(xs) + ("<" + tail), last) == FlatAll(MeantAll(xs)) + MarkupTokens(tail, last)
    decreases xs, 1
  {
    hide ReadMarkup, Tokens, MarkupTokens, Body, Decoded, Flat, Meant;
    if xs == [] {
      assert WriteAll(xs) + ("<" + tail) == "<" + tail;
      MarkupNext(tail, last);
    } else {
      var x, rest := xs[0], WriteAll(xs[1..]) + ("<" + tail);
      InnerReads(xs[1..], tail, last);
      FlatNext(xs);
      if x.Prose? {
        ProseReads(xs, tail, last);
      } else {
        MarkupReads(x, rest, last);
        assert WriteAll(xs) + ("<" + tail) == "<" + (Body(x) + (">" + rest));
        MarkupNext(Body(x) + (">" + rest), last);
      }
    }
  }

  lemma {:induction false} FlatNext(xs: seq<Source>)
    requires xs != []
    ensures FlatAll(MeantAll(xs)) == Flat(Meant(xs[0])) + FlatAll(MeantAll(xs[1..]))
  {
    hide Flat, Meant;
    assert MeantAll(xs)[1..] == MeantAll(xs[1..]);
  }

  lemma {:induction false} MarkupNext(s: string, last: char)
    ensures Tokens("<" + s, last) == MarkupTokens(s, last)
  {
    hide MarkupTokens;
    assert ("<" + s)[1..] == s;
  }

  /** Prose, which markup has to follow. */
  lemma {:induction false} ProseReads(xs: seq<Source>, tail: string, last: char)
    requires AreSources(xs) && xs != [] && xs[0].Prose?
    requires Tokens(WriteAll(xs[1..]) + ("<" + tail), last) == FlatAll(MeantAll(xs[1..])) + MarkupTokens(tail, last)
    ensures Tokens(WriteAll(xs) + ("<" + tail), last) == Flat(Meant(xs[0])) + FlatAll(MeantAll(xs[1..]))
              + MarkupTokens(tail, last)
  {
    hide Tokens, MarkupTokens, FlatAll, MeantAll, Body, Decoded;
    var raw, rest := xs[0].raw, WriteAll(xs[1..]) + ("<" + tail);
    assert rest[0] == '<' by {
      if |xs| > 1 {
        assert xs[1..][0] == xs[1] && !xs[1].Prose?;
      }
    }
    assert WriteAll(xs) + ("<" + tail) == raw + ("<" + rest[1..]);
    assert rest == "<" + rest[1..];
    ProseThen(raw, rest[1..], last);
    MarkupNext(rest[1..], last);
  }

  lemma {:induction false} ProseThen(raw: string, r: string, last: char)
    requires raw != "" && NoneOf(raw, "<")
    ensures Tokens(raw + ("<" + r), last) == [Data(Decoded(raw, Text))] + MarkupTokens(r, last)
  {
    hide MarkupTokens, Decoded, Cspn;
    var s := raw + ("<" + r);
    assert s[..|raw|] == raw && s[|raw| + 1..] == r;
    CspnIs(s, "<", |raw|);
  }

  // --------------------------------------------------------------------------------- whole documents

  /** The tokens of a text whose last character makes room for the terminator. */
  ghost function TopTokens(s: string): seq<Token> {
    if s == "" then [] else Tokens(s[..|s| - 1], s[|s| - 1])
  }

  /** Markup that ends a text, or has more behind it. */
  lemma {:induction false} TopMarkup(x: Source, rest: string)
    requires IsSource(x) && !x.Prose? && (rest == "" ==> MayEnd(x))
    ensures TopTokens("<" + (Body(x) + (">" + rest))) == Flat(Meant(x)) + TopTokens(rest)
  {
    hide Tokens, MarkupTokens, Body, Flat, Meant, IsSource;
    var s := "<" + (Body(x) + (">" + rest));
    if rest == "" {
      assert s[..|s| - 1] == "<" + Body(x);
      MarkupNext(Body(x), '>');
      MarkupEnds(x);
      assert Flat(Meant(x)) + [] == Flat(Meant(x));
    } else {
      var init, last := rest[..|rest| - 1], rest[|rest| - 1];
      assert s[..|s| - 1] == "<" + (Body(x) + (">" + init));
      MarkupNext(Body(x) + (">" + init), last);
      MarkupReads(x, init, last);
    }
  }

  /** Prose in front of markup. */
  lemma {:induction false} TopProse(raw: string, rest: string)
    requires raw != "" && NoneOf(raw, "<") && |rest| > 1 && rest[0] == '<'
    ensures TopTokens(raw + rest) == [Data(Decoded(raw, Text))] + TopTokens(rest)
  {
    hide Tokens, MarkupTokens, Decoded;
    var s := raw + rest;
    var init, last := rest[1..|rest| - 1], rest[|rest| - 1];
    assert s[..|s| - 1] == raw + ("<" + init) && rest[..|rest| - 1] == "<" + init;
    ProseThen(raw, init, last);
    MarkupNext(init, last);
  }

  lemma {:induction false} NoTokens(s: string)
    requires NoneOf(s, "<")
    ensures TopTokens(s) == []
  {
    if s != "" {
      CspnIs(s[..|s| - 1], "<", |s| - 1);
    }
  }

  lemma {:induction false} TopReads(xs: seq<Source>, trail: string)
    requires AreSources(xs) && (xs != [] ==> MayEnd(xs[|xs| - 1])) && NoneOf(trail, "<")
    ensures TopTokens(WriteAll(xs) + trail) == FlatAll(MeantAll(xs))
    decreases |xs|
  {
    hide TopTokens, Body, Flat, Meant, Decoded, FlatAll, IsSource;
    if xs == [] {
      assert WriteAll(xs) + trail == trail;
      NoTokens(trail);
      FlatNone();
    } else {
      var x, rest := xs[0], WriteAll(xs[1..]) + trail;
      TopFirst(xs, trail);
      TopReads(xs[1..], trail);
      FlatNext(xs);
      if x.Prose? {
        TopProse(x.raw, rest);
        FlatProse(x);
      } else {
        TopMarkup(x, rest);
      }
    }
  }

  /** What the first piece leaves behind it. */
  lemma {:induction false} TopFirst(xs: seq<Source>, trail: string)
    requires AreSources(xs) && xs != [] && MayEnd(xs[|xs| - 1])
    ensures IsSource(xs[0]) && AreSources(xs[1..]) && (|xs| > 1 ==> MayEnd(xs[1..][|xs| - 2]))
    ensures var x, rest := xs[0], WriteAll(xs[1..]) + trail;
            if x.Prose? then
              WriteAll(xs) + trail == x.raw + rest && x.raw != "" && NoneOf(x.raw, "<") && |rest| > 1 && rest[0] == '<'
            else WriteAll(xs) + trail == "<" + (Body(x) + (">" + rest)) && (rest == "" ==> MayEnd(x))
  {
    hide Body, NoneOf;
    var x, rest := xs[0], WriteAll(xs[1..]) + trail;
    if |xs| > 1 {
      assert xs[1..][0] == xs[1];
    }
    if x.Prose? {
      assert WriteAll(xs) + trail == x.raw + rest;
    } else {
      assert WriteAll(xs) + trail == "<" + (Body(x) + (">" + rest));
    }
  }

  lemma {:induction false} FlatProse(x: Source)
    requires x.Prose?
    ensures Flat(Meant(x)) == [Data(Decoded(x.raw, Text))]
  {
    hide Decoded;
  }

  lemma {:induction false} NoneOfConcat(a: string, b: string, chars: string)
    ensures NoneOf(a + b, chars) <==> NoneOf(a, chars) && NoneOf(b, chars)
  {
    if NoneOf(a + b, chars) {
      assert forall i | 0 <= i < |a| :: a[i] == (a + b)[i];
      assert forall i | 0 <= i < |b| :: b[i] == (a + b)[|a| + i];
    }
  }

  lemma {:induction false} SettingsNoNul(settings: seq<Setting>)
    requires AreSettings(settings)
    ensures NoneOf(WriteSettings(settings), NUL)
  {
    if settings != [] {
      var a := settings[0];
      assert IsSetting(a);
      SettingsNoNul(settings[1..]);
    }
  }

  lemma {:induction false} WriteNoNul(x: Source)
    requires IsSource(x)
    ensures NoneOf(Write(x), NUL)
    decreases x, 1
  {
    hide WriteAll, WriteSettings, AreSettings, Lacks, IsTagStart, IsBlank, NoneOf;
    hide Body;
    match x
    case Prose(_) =>
    case Empty(name, settings, tail) =>
      SettingsNoNul(settings);
      TagNoNul(name, WriteSettings(settings), tail, "/>");
      BodyThen(x, ">");
      assert Write(x) == "<" + (name + (WriteSettings(settings) + (tail + "/>")));
    case Full(name, settings, tail, inner, endTail) =>
      SettingsNoNul(settings);
      WriteAllNoNul(inner);
      var end := WriteAll(inner) + ("<" + ("/" + (name + (endTail + ">"))));
      EndNoNul(WriteAll(inner), name, endTail);
      TagNoNul(name, WriteSettings(settings), tail, ">" + end);
      FullBody(x, ">");
    case _ => LeafNoNul(x);
  }

  lemma {:induction false} LeafNoNul(x: Source)
    requires IsSource(x) && (x.Verbatim? || x.Remark? || x.Instruction? || x.Doctype?)
    ensures NoneOf(Write(x), NUL)
  {
    hide Lacks;
  }

  lemma {:induction false} TagNoNul(name: string, settings: string, tail: string, r: string)
    requires IsTagName(name) && NoneOf(settings, NUL) && IsBlank(tail)
    requires r != "" && r[0] in "/>" && (r == "/>" || NoneOf(r[1..], NUL))
    ensures NoneOf("<" + (name + (settings + (tail + r))), NUL)
  {
    hide IsTagStart;
    assert NoneOf(r, NUL) by {
      assert r == [r[0]] + r[1..];
      NoneOfConcat([r[0]], r[1..], NUL);
    }
    assert NoneOf(tail, NUL);
    hide IsBlank, NoneOf;
    NoneOfConcat(tail, r, NUL);
    NoneOfConcat(settings, tail + r, NUL);
    NoneOfConcat(name, settings + (tail + r), NUL);
    NoneOfConcat("<", name + (settings + (tail + r)), NUL);
    assert NoneOf("<", NUL) by { LtNoNul(); }
  }

  lemma {:induction false} LtNoNul()
    ensures NoneOf("<", NUL) && NoneOf("</", NUL) && NoneOf(">", NUL)
  {
  }

  lemma {:induction false} EndNoNul(inner: string, name: string, endTail: string)
    requires NoneOf(inner, NUL) && IsTagName(name) && IsBlank(endTail)
    ensures var end := inner + ("<" + ("/" + (name + (endTail + ">")))); NoneOf(end, NUL) && (">" + end)[1..] == end
  {
    assert NoneOf(endTail, NUL);
    hide IsBlank, NoneOf, IsTagStart;
    LtNoNul();
    NoneOfConcat(endTail, ">", NUL);
    NoneOfConcat(name, endTail + ">", NUL);
    NoneOfConcat("</", name + (endTail + ">"), NUL);
    NoneOfConcat(inner, "</" + (name + (endTail + ">")), NUL);
    assert inner + ("<" + ("/" + (name + (endTail + ">")))) == inner + ("</" + (name + (endTail + ">")));
  }

  lemma {:induction false} WriteAllNoNul(xs: seq<Source>)
    requires AreSources(xs)
    ensures NoneOf(WriteAll(xs), NUL)
    decreases xs, 0
  {
    hide Write, IsSource;
    if xs != [] {
      WriteNoNul(xs[0]);
      WriteAllNoNul(xs[1..]);
    }
  }

  lemma {:induction false} NoNulKept(s: string, t: string)
    requires NoneOf(s, NUL)
    ensures CString(s + t) == s + CString(t)
  {
    var n := Cspn(t, [0 as char]);
    CspnIs(s + t, [0 as char], |s| + n);
    assert (s + t)[..|s| + n] == s + t[..n];
  }

  /** A document that begins neither with a byte order mark nor with the first byte of one. */
  predicate Unmarked(s: string) {
    s != "" && s[0] != 0xFE as char && s[0] != 0xFF as char
  }

  lemma {:induction false} ParseIs(s: string)
    requires Unmarked(s)
    ensures Parse(s) == Build(Tokens(CString(s[..|s| - 1]), s[|s| - 1]), Before)
  {
    hide Tokens, Build, CString;
  }

  predicate IsMisc(x: Source) {
    !x.Verbatim? && !x.Empty? && !x.Full?
  }

  predicate AreMisc(xs: seq<Source>) {
    forall i | 0 <= i < |xs| :: IsMisc(xs[i])
  }

  lemma {:induction false} MiscLeaves(xs: seq<Source>)
    requires AreMisc(xs)
    ensures AllLeaves(FlatAll(MeantAll(xs)))
  {
    hide Decoded;
    if xs != [] {
      assert IsMisc(xs[0]);
      MiscLeaves(xs[1..]);
      FlatNext(xs);
      assert Flat(Meant(xs[0])) + FlatAll(MeantAll(xs[1..])) == [LeafToken(xs[0])] + FlatAll(MeantAll(xs[1..]));
      assert ([LeafToken(xs[0])] + FlatAll(MeantAll(xs[1..])))[1..] == FlatAll(MeantAll(xs[1..]));
    }
  }

  lemma {:induction false} MeantIsItem(x: Source)
    ensures IsItem(Meant(x))
    decreases x, 1
  {
    hide Decoded, MeantAttrs;
    if x.Full? {
      MeantAreItems(x.inner);
    }
  }

  lemma {:induction false} MeantAreItems(xs: seq<Source>)
    ensures AreItems(MeantAll(xs))
    decreases xs, 0
  {
    hide Meant;
    if xs != [] {
      MeantIsItem(xs[0]);
      MeantAreItems(xs[1..]);
      assert MeantAll(xs)[1..] == MeantAll(xs[1..]);
    }
  }

  lemma {:induction false} MeantConcat(xs: seq<Source>, ys: seq<Source>)
    ensures MeantAll(xs + ys) == MeantAll(xs) + MeantAll(ys)
  {
    hide Meant;
    if xs == [] {
      assert xs + ys == ys;
    } else {
      assert (xs + ys)[1..] == xs[1..] + ys;
      MeantConcat(xs[1..], ys);
    }
  }

  /** Every document written by the rules, with prolog and epilog, is read as its root element. */
  lemma {:induction false} WrittenParses(pre: seq<Source>, root: Source, post: seq<Source>, trail: string)
    requires AreSources(pre + [root] + post) && AreMisc(pre) && AreMisc(post) && (root.Empty? || root.Full?)
    requires post != [] ==> !post[|post| - 1].Prose?
    requires NoneOf(trail, "<") && NoneOf(trail, NUL) && Unmarked(WriteAll(pre + [root] + post))
    ensures Parse(WriteAll(pre + [root] + post) + trail) == Parsed(TreeOf(Meant(root), 0))
  {
    hide Parse, Tokens, Build, WriteAll, MeantAll, FlatAll, Flat, Meant, TreeOf, AreSources, CString, Decoded;
    var xs := pre + [root] + post;
    var s := WriteAll(xs) + trail;
    WriteAllNoNul(xs);
    TopReads(xs, trail);
    NoneOfConcat(WriteAll(xs), trail, NUL);
    ParseIs(s);
    WholeCString(s);
    MeantConcat(pre + [root], post);
    MeantConcat(pre, [root]);
    OneMeant(root);
    FlatItems(MeantAll(pre), Meant(root), MeantAll(post));
    MiscLeaves(pre);
    MiscLeaves(post);
    MeantIsItem(root);
    assert Meant(root).Element? by { RootElement(root); }
    DocumentBuilds(TopTokens(s), FlatAll(MeantAll(pre)), Meant(root), FlatAll(MeantAll(post)));
  }

  lemma {:induction false} RootElement(x: Source)
    requires x.Empty? || x.Full?
    ensures Meant(x).Element?
  {
  }

  lemma {:induction false} OneMeant(x: Source)
    ensures MeantAll([x]) == [Meant(x)]
  {
    hide Meant;
  }

  lemma {:induction false} WholeCString(s: string)
    requires s != "" && NoneOf(s, NUL)
    ensures CString(s[..|s| - 1]) == s[..|s| - 1]
  {
    CspnIs(s[..|s| - 1], [0 as char], |s| - 1);
  }
}
