/** The parser undoes the printer. */
module RoundTrip {
  import opened Chars
  import opened Decoding
  import opened Escaping
  import opened Markup
  import opened Nesting
  import opened Parsing
  import opened XmlTree

  const NUL := [0 as char]

  predicate NoneOf(s: string, chars: string) {
    forall i | 0 <= i < |s| :: s[i] !in chars
  }

  /** What the parser can read back as a tag name; every name of XML is one. */
  predicate IsTagName(s: string) {
    IsTagStart(s) && NoneOf(s, NAME_END) && NoneOf(s, NUL)
  }

  predicate IsAttrName(s: string) {
    s != "" && !IsSpace(s[0]) && NoneOf(s, ATTR_END) && NoneOf(s, NUL)
  }

  predicate AttrsNamed(attrs: seq<Attr>) {
    forall i | 0 <= i < |attrs| :: IsAttrName(attrs[i].name) && NoneOf(attrs[i].value, NUL)
  }

  /** Names the parser can read back, and no terminator in the text. */
  predicate Named(x: Xml)
    decreases x
  {
    IsTagName(x.name) && AttrsNamed(x.attrs) && NoneOf(x.txt, NUL) && AllNamed(x.kids)
  }

  predicate AllNamed(tags: seq<Xml>)
    decreases tags
  {
    tags == [] || (Named(tags[0]) && AllNamed(tags[1..]))
  }

  // ---------------------------------------------------------------------------- what is read back

  function ShownAttr(a: Attr): Attr {
    Attr(a.name, Blanked(a.value, Attribute))
  }

  /** The attributes as they are read back: the first of each name, with blanks for VT and FF. */
  function ShownAttrs(attrs: seq<Attr>, i: nat): (r: seq<Attr>)
    requires i <= |attrs|
    ensures |r| <= |attrs| - i
    decreases |attrs| - i
  {
    if i == |attrs| then []
    else if FirstNamed(attrs, attrs[i].name) != i then ShownAttrs(attrs, i + 1)
    else [ShownAttr(attrs[i])] + ShownAttrs(attrs, i + 1)
  }

  function Shown(x: Xml): Xml
    decreases x
  {
    x.(attrs := ShownAttrs(x.attrs, 0), kids := ShownAll(x.kids))
  }

  function ShownAll(tags: seq<Xml>): seq<Xml>
    decreases tags
  {
    if tags == [] then [] else [Shown(tags[0])] + ShownAll(tags[1..])
  }

  /** Distinct names, and no vertical tab or form feed in the values. */
  predicate AttrsKept(attrs: seq<Attr>) {
    forall i | 0 <= i < |attrs| :: FirstNamed(attrs, attrs[i].name) == i && !HasBlanks(attrs[i].value)
  }

  predicate Kept(x: Xml)
    decreases x
  {
    AttrsKept(x.attrs) && AllKept(x.kids)
  }

  predicate AllKept(tags: seq<Xml>)
    decreases tags
  {
    tags == [] || (Kept(tags[0]) && AllKept(tags[1..]))
  }

  lemma {:induction false} ShownAttrsFrom(attrs: seq<Attr>, i: nat)
    requires i <= |attrs|
    ensures ShownAttrs(attrs, i) == attrs[i..] <==>
            forall k | i <= k < |attrs| :: FirstNamed(attrs, attrs[k].name) == k && !HasBlanks(attrs[k].value)
    decreases |attrs| - i
  {
    hide FirstNamed, HasBlanks;
    if i < |attrs| {
      ShownAttrsFrom(attrs, i + 1);
      BlankedIsSame(attrs[i].value);
      var a := attrs[i];
      assert attrs[i..] == [a] + attrs[i + 1..];
      assert ShownAttr(a) == a <==> !HasBlanks(a.value);
      if FirstNamed(attrs, a.name) == i {
        assert ShownAttrs(attrs, i)[1..] == ShownAttrs(attrs, i + 1);
        assert attrs[i..][1..] == attrs[i + 1..];
      }
    }
  }

  lemma {:induction false} ShownIsSame(x: Xml)
    ensures Shown(x) == x <==> Kept(x)
    decreases x, 1
  {
    hide ShownAttrs, AttrsKept, ShownAll, AllKept;
    assert ShownAttrs(x.attrs, 0) == x.attrs <==> AttrsKept(x.attrs) by {
      ShownAttrsAll(x.attrs);
    }
    AllShownIsSame(x.kids);
  }

  lemma {:induction false} ShownAttrsAll(attrs: seq<Attr>)
    ensures ShownAttrs(attrs, 0) == attrs <==> AttrsKept(attrs)
  {
    hide ShownAttrs, FirstNamed, HasBlanks;
    ShownAttrsFrom(attrs, 0);
    assert attrs[0..] == attrs;
  }

  lemma {:induction false} AllShownIsSame(tags: seq<Xml>)
    ensures ShownAll(tags) == tags <==> AllKept(tags)
    decreases tags, 0
  {
    hide Shown, Kept;
    if tags != [] {
      ShownIsSame(tags[0]);
      AllShownIsSame(tags[1..]);
      assert tags == [tags[0]] + tags[1..];
      assert ShownAll(tags)[1..] == ShownAll(tags[1..]);
    }
  }

  // --------------------------------------------------------------------------------------- text

  lemma {:induction false} CspnIs(s: string, stop: string, n: nat)
    requires n <= |s| && NoneOf(s[..n], stop) && (n < |s| ==> s[n] in stop)
    ensures Cspn(s, stop) == n
  {
    forall i | 0 <= i < n
      ensures s[i] !in stop
    {
      assert s[..n][i] == s[i];
    }
  }

  lemma {:induction false} EscapeNoneOf(s: string, attribute: bool, c: char)
    requires c !in "&#;ampltgquoxADnr9"
    requires c == '<' || (c == '"' && attribute) || NoneOf(s, [c])
    ensures NoneOf(Escape(s, attribute), [c])
  {
    if s != "" {
      assert NoneOf(s, [c]) ==> NoneOf(s[1..], [c]) && s[0] != c;
      EscapeNoneOf(s[1..], attribute, c);
      assert NoneOf(EscapeChar(s[0], attribute), [c]);
    }
  }

  lemma {:induction false} EscapeEmpty(s: string, attribute: bool)
    ensures Escape(s, attribute) == "" <==> s == ""
  {
    if s != "" {
      assert EscapeChar(s[0], attribute) != "";
    }
  }

  function DataOf(txt: string): seq<Item> {
    if txt == "" then [] else [Leaf(Data(txt))]
  }

  /** Encoded character content is one token, or none if it is empty. */
  lemma {:induction false} TextTokens(txt: string, tail: string, last: char)
    ensures Tokens(Escape(txt, false) + ("<" + tail), last) == FlatAll(DataOf(txt)) + MarkupTokens(tail, last)
  {
    hide Decoded, MarkupTokens, Cspn, Escape;
    var e := Escape(txt, false);
    var s := e + ("<" + tail);
    EscapeNoneOf(txt, false, '<');
    EscapeEmpty(txt, false);
    assert s[..|e|] == e && s[|e| + 1..] == tail;
    CspnIs(s, "<", |e|);
    if txt == "" {
      assert s[1..] == tail;
    } else {
      TextRoundTrip(txt);
      assert FlatAll(DataOf(txt)) == [Data(txt)] by {
        FlatOne(Data(txt));
      }
    }
  }

  lemma {:induction false} FlatOne(t: Token)
    ensures FlatAll([Leaf(t)]) == [t]
  {
  }

  // ---------------------------------------------------------------------------------- attributes

  lemma {:induction false} ValueReads(a: Attr, r: string)
    ensures ReadValue(a.name, "\"" + Escape(a.value, true) + "\"" + r) == AttrScan(ShownAttr(a), SkipSpace(r))
  {
    hide Escape, Decoded, Cspn, SkipSpace;
    var e := Escape(a.value, true);
    var t := "\"" + e + "\"" + r;
    assert Spn(t, " \t\r\n=") == 0;
    assert t[0..] == t && t[1..] == e + "\"" + r;
    EscapeNoneOf(a.value, true, '"');
    assert t[1..][..|e|] == e && t[|e| + 2..] == r;
    CspnIs(t[1..], [t[0]], |e|);
    EncodedDecodes(a.value, Attribute);
  }

  lemma {:induction false} AttrReads(a: Attr, r: string)
    requires IsAttrName(a.name)
    ensures ReadAttr(a.name + "=\"" + Escape(a.value, true) + "\"" + r) == AttrScan(ShownAttr(a), SkipSpace(r))
  {
    hide Escape, Decoded, Cspn, SkipSpace, ReadValue;
    var v := "\"" + Escape(a.value, true) + "\"" + r;
    var s := a.name + "=\"" + Escape(a.value, true) + "\"" + r;
    var k := |a.name|;
    assert s == a.name + ("=" + v);
    assert s[..k] == a.name && s[k + 1..] == v && s[k] == '=';
    CspnIs(s, ATTR_END, k);
    ValueReads(a, r);
  }

  lemma {:induction false} SkipsOne(s: string)
    requires s != "" && !IsSpace(s[0])
    ensures SkipSpace(" " + s) == s && SkipSpace(s) == s
  {
    var t := " " + s;
    assert SpaceSpan(s) == 0 && t[1..] == s;
    assert SpaceSpan(t) == 1;
  }

  lemma {:induction false} AttrsRead(attrs: seq<Attr>, i: nat, r: string)
    requires i <= |attrs| && AttrsNamed(attrs)
    ensures ReadAttrs(SkipSpace(PrintAttrs(attrs, i) + (">" + r))) == AttrsScan(ShownAttrs(attrs, i), ">" + r)
    decreases |attrs| - i
  {
    hide Escape, SkipSpace, ReadAttr, FirstNamed, ShownAttr;
    if i == |attrs| {
      assert PrintAttrs(attrs, i) + (">" + r) == ">" + r;
      SkipsOne(">" + r);
    } else {
      var a := attrs[i];
      AttrsRead(attrs, i + 1, r);
      if FirstNamed(attrs, a.name) == i {
        var rest := PrintAttrs(attrs, i + 1) + (">" + r);
        var s := a.name + "=\"" + Escape(a.value, true) + "\"" + rest;
        assert PrintAttrs(attrs, i) + (">" + r) == " " + s;
        assert s[0] == a.name[0];
        SkipsOne(s);
        AttrReads(a, rest);
        assert a.name[0] !in ATTR_END;
      }
    }
  }

  // ---------------------------------------------------------------------------------------- tags

  lemma {:induction false} PrintAttrsHead(attrs: seq<Attr>, i: nat)
    requires i <= |attrs|
    ensures PrintAttrs(attrs, i) == "" || PrintAttrs(attrs, i)[0] == ' '
    decreases |attrs| - i
  {
    hide Escape, FirstNamed;
    if i < |attrs| {
      PrintAttrsHead(attrs, i + 1);
    }
  }

  lemma {:induction false} OpeningReads(name: string, attrs: seq<Attr>, r: string, last: char)
    requires IsTagName(name) && AttrsNamed(attrs)
    ensures ReadMarkup(name + (PrintAttrs(attrs, 0) + (">" + r)), last)
              == Scan(Open(name, ShownAttrs(attrs, 0), false), ">" + r)
  {
    hide AttrsNamed, PrintAttrs, ReadAttrs, ShownAttrs, SkipSpace, Cspn;
    var more := PrintAttrs(attrs, 0) + (">" + r);
    var s := name + more;
    PrintAttrsHead(attrs, 0);
    assert more[0] == ' ' || more[0] == '>';
    assert s[0] == name[0] && s[..|name|] == name && s[|name|..] == more;
    CspnIs(s, NAME_END, |name|);
    AttrsRead(attrs, 0, r);
  }

  lemma {:induction false} ClosingReads(name: string, r: string, last: char)
    requires IsTagName(name) && (r == "" || r[0] == '>') && AtGt(r, last)
    ensures ReadMarkup("/" + name + r, last) == Scan(Close(name), r)
  {
    hide Cspn;
    var s := "/" + name + r;
    assert !IsTagStart(s) && s[1..] == name + r;
    assert s[1..][..|name|] == name && s[1..][|name|..] == r;
    assert NoneOf(name, CLOSE_END) by {
      forall i | 0 <= i < |name|
        ensures name[i] !in CLOSE_END
      {
        assert name[i] !in NAME_END;
      }
    }
    CspnIs(s[1..], CLOSE_END, |name|);
  }

  lemma {:induction false} ClosingTokens(name: string, r: string, last: char)
    requires IsTagName(name)
    ensures MarkupTokens("/" + name + (">" + r), last) == [Close(name)] + Tokens(r, last)
    ensures MarkupTokens("/" + name, '>') == [Close(name)]
  {
    hide ReadMarkup, Tokens, IsTagName;
    ClosingReads(name, ">" + r, last);
    assert (">" + r)[1..] == r;
    ClosingReads(name, "", '>');
    assert "/" + name + "" == "/" + name;
  }

  // -------------------------------------------------------------------------------- whole documents

  /** The mixed content a tag is printed as. */
  function ItemOf(x: Xml): Item
    decreases x
  {
    Element(x.name, ShownAttrs(x.attrs, 0), false, ItemsOf(x.kids, x.txt, 0))
  }

  function ItemsOf(tags: seq<Xml>, txt: string, start: nat): seq<Item>
    requires start <= |txt|
    decreases tags
  {
    if tags == [] then DataOf(txt[start..])
    else
      DataOf(Slice(txt, start, tags[0].off)) + [ItemOf(tags[0])]
      + ItemsOf(tags[1..], txt, if tags[0].off < |txt| then tags[0].off else |txt|)
  }

  lemma {:induction false} FlatConcat(a: seq<Item>, b: seq<Item>)
    ensures FlatAll(a + b) == FlatAll(a) + FlatAll(b)
  {
    hide Flat;
    if a == [] {
      assert a + b == b;
    } else {
      assert (a + b)[1..] == a[1..] + b;
      FlatConcat(a[1..], b);
    }
  }

  /** What stands between the opening `<` of a tag and its last `>`. */
  function Middle(x: Xml): string {
    x.name + (PrintAttrs(x.attrs, 0) + (">" + (PrintAll(x.kids, x.txt, 0) + ("<" + ("/" + x.name)))))
  }

  lemma {:induction false} PrintIs(x: Xml)
    ensures Print(x) == "<" + Middle(x) + ">"
  {
    hide PrintAll, PrintAttrs;
  }

  lemma {:induction false} ElementTokens(x: Xml, r: string, last: char)
    requires Named(x)
    ensures MarkupTokens(Middle(x) + (">" + r), last) == Flat(ItemOf(x)) + Tokens(r, last)
    ensures MarkupTokens(Middle(x), '>') == Flat(ItemOf(x))
    decreases x, 1
  {
    hide ReadMarkup, Tokens, MarkupTokens, PrintAttrs, PrintAll, IsTagName, AttrsNamed, ItemsOf, FlatAll;
    var attrs, content, close := PrintAttrs(x.attrs, 0), PrintAll(x.kids, x.txt, 0), "/" + x.name;
    var more := close + (">" + r);
    assert Middle(x) + (">" + r) == x.name + (attrs + (">" + (content + ("<" + more))));
    OpeningTokens(x.name, x.attrs, content + ("<" + more), last);
    ContentTokens(x.kids, x.txt, 0, more, last);
    ClosingTokens(x.name, r, last);
    OpeningTokens(x.name, x.attrs, content + ("<" + close), '>');
    ContentTokens(x.kids, x.txt, 0, close, '>');
  }

  lemma {:induction false} OpeningTokens(name: string, attrs: seq<Attr>, r: string, last: char)
    requires IsTagName(name) && AttrsNamed(attrs)
    ensures MarkupTokens(name + (PrintAttrs(attrs, 0) + (">" + r)), last) == [Open(name, ShownAttrs(attrs, 0), false)]
              + Tokens(r, last)
  {
    hide ReadMarkup, Tokens, PrintAttrs, IsTagName, AttrsNamed, ShownAttrs;
    OpeningReads(name, attrs, r, last);
    assert (">" + r)[1..] == r;
  }

  lemma {:induction false} ContentTokens(tags: seq<Xml>, txt: string, start: nat, tail: string, last: char)
    requires start <= |txt| && AllNamed(tags)
    ensures Tokens(PrintAll(tags, txt, start) + ("<" + tail), last) == FlatAll(ItemsOf(tags, txt, start))
              + MarkupTokens(tail, last)
    decreases tags, 0
  {
    hide ReadMarkup, Tokens, MarkupTokens, Named, Flat, ItemOf, FlatAll, Print, Middle, Escape, Slice, DataOf;
    if tags == [] {
      TextTokens(txt[start..], tail, last);
    } else {
      var x, lead := tags[0], Slice(txt, start, tags[0].off);
      var off := if x.off < |txt| then x.off else |txt|;
      var rest := PrintAll(tags[1..], txt, off) + ("<" + tail);
      PrintIs(x);
      assert PrintAll(tags, txt, start) + ("<" + tail) == Escape(lead, false) + ("<" + (Middle(x) + (">" + rest)));
      TextTokens(lead, Middle(x) + (">" + rest), last);
      ElementTokens(x, rest, last);
      ContentTokens(tags[1..], txt, off, tail, last);
      FlatItems(DataOf(lead), ItemOf(x), ItemsOf(tags[1..], txt, off));
    }
  }

  lemma {:induction false} FlatItems(a: seq<Item>, item: Item, b: seq<Item>)
    ensures FlatAll(a + [item] + b) == FlatAll(a) + Flat(item) + FlatAll(b)
  {
    hide Flat;
    assert a + [item] + b == a + ([item] + b);
    FlatConcat(a, [item] + b);
    assert ([item] + b)[1..] == b;
  }

  // -------------------------------------------------------------------------- the tree read back

  lemma {:induction false} TreeOfItem(x: Xml)
    requires WellPlaced(x)
    ensures TreeOf(ItemOf(x), x.off) == Shown(x)
    decreases x, 1
  {
    hide ItemsOf, TextOf, KidsOf, InOrder, ShownAttrs, ShownAll;
    ItemsGive(x.kids, x.txt, 0);
    assert x.txt[0..] == x.txt;
  }

  lemma {:induction false} ItemsGive(tags: seq<Xml>, txt: string, start: nat)
    requires start <= |txt| && InOrder(tags, start, |txt|)
    ensures TextOf(ItemsOf(tags, txt, start)) == txt[start..]
    ensures KidsOf(ItemsOf(tags, txt, start), start) == ShownAll(tags)
    decreases tags, 0
  {
    hide ItemOf, TreeOf, WellPlaced, TextOf, KidsOf, DataOf, Slice, Shown;
    if tags == [] {
      NoItems();
      DataGives(txt[start..], [], start);
      assert DataOf(txt[start..]) + [] == DataOf(txt[start..]);
    } else {
      var x := tags[0];
      var lead, rest := txt[start..x.off], ItemsOf(tags[1..], txt, x.off);
      TreeOfItem(x);
      ItemsGive(tags[1..], txt, x.off);
      ItemGives(x, rest);
      DataGives(lead, [ItemOf(x)] + rest, start);
      ItemsSplit(tags, txt, start);
      assert txt[start..] == lead + txt[x.off..];
    }
  }

  lemma {:induction false} NoItems()
    ensures TextOf([]) == "" && forall off: nat :: KidsOf([], off) == []
  {
  }

  lemma {:induction false} ItemsSplit(tags: seq<Xml>, txt: string, start: nat)
    requires tags != [] && start <= tags[0].off <= |txt|
    ensures ItemsOf(tags, txt, start) == DataOf(txt[start..tags[0].off])
              + ([ItemOf(tags[0])] + ItemsOf(tags[1..], txt, tags[0].off))
  {
    hide ItemOf, DataOf;
  }

  lemma {:induction false} ItemGives(x: Xml, rest: seq<Item>)
    ensures TextOf([ItemOf(x)] + rest) == TextOf(rest)
    ensures KidsOf([ItemOf(x)] + rest, x.off) == [TreeOf(ItemOf(x), x.off)] + KidsOf(rest, x.off)
  {
    hide TreeOf, ItemsOf;
    assert ([ItemOf(x)] + rest)[1..] == rest;
    assert "" + TextOf(rest) == TextOf(rest);
  }

  lemma {:induction false} DataGives(txt: string, rest: seq<Item>, off: nat)
    ensures TextOf(DataOf(txt) + rest) == txt + TextOf(rest)
    ensures KidsOf(DataOf(txt) + rest, off) == KidsOf(rest, off + |txt|)
  {
    if txt == "" {
      assert DataOf(txt) + rest == rest && txt + TextOf(rest) == TextOf(rest);
    } else {
      assert (DataOf(txt) + rest)[1..] == rest;
    }
  }

  lemma {:induction false} ItemsAre(tags: seq<Xml>, txt: string, start: nat)
    requires start <= |txt|
    ensures AreItems(ItemsOf(tags, txt, start))
    decreases tags
  {
    hide TreeOf;
    if tags == [] {
      DataAreItems(txt[start..], []);
      assert DataOf(txt[start..]) + [] == DataOf(txt[start..]);
    } else {
      var off := if tags[0].off < |txt| then tags[0].off else |txt|;
      var lead, rest := Slice(txt, start, tags[0].off), ItemsOf(tags[1..], txt, off);
      ItemsAre(tags[1..], txt, off);
      ItemsAre(tags[0].kids, tags[0].txt, 0);
      assert ([ItemOf(tags[0])] + rest)[1..] == rest;
      DataAreItems(lead, [ItemOf(tags[0])] + rest);
      assert DataOf(lead) + [ItemOf(tags[0])] + rest == DataOf(lead) + ([ItemOf(tags[0])] + rest);
    }
  }

  lemma {:induction false} DataAreItems(txt: string, rest: seq<Item>)
    requires AreItems(rest)
    ensures AreItems(DataOf(txt) + rest)
  {
    if txt == "" {
      assert DataOf(txt) + rest == rest;
    } else {
      assert (DataOf(txt) + rest)[1..] == rest;
    }
  }

  // ---------------------------------------------------------------------------------- no terminator

  lemma {:induction false} PrintAttrsNoNul(attrs: seq<Attr>, i: nat)
    requires i <= |attrs| && AttrsNamed(attrs)
    ensures NoneOf(PrintAttrs(attrs, i), NUL)
    decreases |attrs| - i
  {
    hide Escape, FirstNamed;
    if i < |attrs| {
      EscapeNoneOf(attrs[i].value, true, 0 as char);
      PrintAttrsNoNul(attrs, i + 1);
    }
  }

  lemma {:induction false} PrintNoNul(x: Xml)
    requires Named(x)
    ensures NoneOf(Print(x), NUL)
    decreases x, 1
  {
    hide AttrsNamed, PrintAttrs, PrintAll, IsTagStart;
    PrintAttrsNoNul(x.attrs, 0);
    PrintAllNoNul(x.kids, x.txt, 0);
  }

  lemma {:induction false} PrintAllNoNul(tags: seq<Xml>, txt: string, start: nat)
    requires start <= |txt| && AllNamed(tags) && NoneOf(txt, NUL)
    ensures NoneOf(PrintAll(tags, txt, start), NUL)
    decreases tags, 0
  {
    hide Escape, Print, Named;
    if tags == [] {
      EscapeNoneOf(txt[start..], false, 0 as char);
    } else {
      EscapeNoneOf(Slice(txt, start, tags[0].off), false, 0 as char);
      PrintNoNul(tags[0]);
      PrintAllNoNul(tags[1..], txt, if tags[0].off < |txt| then tags[0].off else |txt|);
    }
  }

  // ------------------------------------------------------------------------------------ main result

  /** Reading back the printed text of a tree: names, text, offsets and order are kept. */
  lemma {:induction false} PrintedParses(x: Xml)
    requires Named(x) && WellPlaced(x) && x.off == 0
    ensures Parse(Print(x)) == Parsed(Shown(x))
  {
    hide Print, Named, Middle, Tokens, MarkupTokens, Build, Cspn, WellPlaced, ItemOf, Flat, Shown, Utf16.Transcode;
    var s := Print(x);
    var work := "<" + Middle(x);
    PrintIs(x);
    assert s[..|s| - 1] == work && s[|s| - 1] == '>';
    PrintNoNul(x);
    assert NoneOf(work, NUL);
    CspnIs(work, NUL, |work|);
    assert CString(work) == work;
    RootTokens(x);
    ItemBuilds(x);
    assert s[0] == '<';
  }

  lemma {:induction false} RootTokens(x: Xml)
    requires Named(x)
    ensures Tokens("<" + Middle(x), '>') == Flat(ItemOf(x))
  {
    hide Named, Middle, MarkupTokens, Flat, ItemOf;
    ElementTokens(x, "", '>');
    assert Cspn("<" + Middle(x), "<") == 0;
    assert ("<" + Middle(x))[1..] == Middle(x);
  }

  lemma {:induction false} ItemBuilds(x: Xml)
    requires WellPlaced(x) && x.off == 0
    ensures Build(Flat(ItemOf(x)), Before) == Parsed(Shown(x))
  {
    hide Flat, Build, WellPlaced, Shown;
    var ts := Flat(ItemOf(x));
    ItemsAre(x.kids, x.txt, 0);
    assert ts == [] + ts + [];
    assert IsDocument(ts, [], ItemOf(x), []);
    DocumentBuilds(ts, [], ItemOf(x), []);
    TreeOfItem(x);
  }

  /** The whole tree comes back if and only if its tags stand in the order of their offsets within the
      text, attribute names are distinct, and no value holds a vertical tab or form feed. */
  lemma {:induction false} RoundTripExactly(x: Xml)
    requires Named(x)
    ensures Parse(Print(x)) == Parsed(x) <==> WellPlaced(x) && x.off == 0 && Kept(x)
  {
    hide Print, Named, WellPlaced, Shown, Kept, Parse;
    if Parse(Print(x)) == Parsed(x) {
      PrintNotEmpty(x);
      ParsedWellPlaced(Print(x));
    }
    if WellPlaced(x) && x.off == 0 {
      PrintedParses(x);
      ShownIsSame(x);
    }
  }

  /** A vertical tab in an attribute comes back as a blank. */
  lemma {:induction false} BlankIsLost()
    ensures var x := Xml("a", [Attr("b", [11 as char])], "", [], 0);
            Named(x) && WellPlaced(x) && Parse(Print(x)) != Parsed(x)
  {
    hide Print, Parse;
    var attrs := [Attr("b", [11 as char])];
    var x := Xml("a", attrs, "", [], 0);
    assert attrs[0].value[0] == 11 as char && HasBlanks(attrs[0].value);
    assert !AttrsKept(attrs);
    RoundTripExactly(x);
  }

  /** Children out of the order of their offsets do not come back. */
  lemma {:induction false} OrderIsLost()
    ensures var x := Xml("a", [], "t", [Xml("b", [], "", [], 1), Xml("c", [], "", [], 0)], 0);
            Named(x) && Kept(x) && Parse(Print(x)) != Parsed(x)
  {
    hide Print, Parse;
    var kids := [Xml("b", [], "", [], 1), Xml("c", [], "", [], 0)];
    var x := Xml("a", [], "t", kids, 0);
    assert kids[1..] == [Xml("c", [], "", [], 0)] && kids[1..][1..] == [];
    assert Named(kids[0]) && Named(kids[1]) && Kept(kids[0]) && Kept(kids[1]);
    assert !InOrder(kids[1..], 1, 1);
    RoundTripExactly(x);
  }

  lemma {:induction false} PrintNotEmpty(x: Xml)
    ensures Print(x) != ""
  {
    hide PrintAll, PrintAttrs;
  }
}
