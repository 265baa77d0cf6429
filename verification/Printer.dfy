/** The printer's output buffer: text is appended at `len`, and the buffer grows before it is short. */
module Printer {
  import opened Buffers
  import opened Escaping
  import opened XmlTree

  /** What an append may move: the buffer itself, or to a new one. */
  class Output {
    var s: array<char>
    var len: nat

    /** There is always room for the terminator. */
    predicate Valid()
      reads this
    {
      len < s.Length
    }

    predicate Terminated()
      reads this, s
      requires Valid()
    {
      s[len] == 0 as char
    }

    function Text(): string
      reads this, s
      requires Valid()
    {
      s[..len]
    }

    constructor ()
      ensures Valid() && Terminated() && Text() == "" && fresh(s)
    {
      s := new char[BUFSIZE](_ => 0 as char);
      len := 0;
    }

    /** Makes room for `need` characters, the terminator included. */
    method Grow(need: nat)
      requires Valid() && need > 0
      modifies this`s
      ensures Valid() && Text() == old(Text()) && len + need <= s.Length
      ensures s == old(s) || fresh(s)
      ensures old(Terminated()) ==> Terminated()
    {
      ghost var before := s[..];
      s := Reserve(s, len, need);
      assert s[..len] == before[..len] && s[..|before|][len] == before[len];
    }

    /** `sprintf`: appends a text and the terminator. */
    method Format(t: string)
      requires Valid() && len + |t| < s.Length
      modifies this`len, s
      ensures s == old(s) && len == old(len) + |t|
      ensures Valid() && Terminated() && Text() == old(Text()) + t
    {
      var l := len;
      for i := 0 to |t|
        invariant s == old(s) && len == l && s[..l] == old(s[..l]) && s[l..l + i] == t[..i]
      {
        s[l + i] := t[i];
      }
      s[l + |t|] := 0 as char;
      len := l + |t|;
    }

    method Put(c: char)
      requires Valid() && len + 1 < s.Length
      modifies this`len, s
      ensures s == old(s) && len == old(len) + 1
      ensures Valid() && Text() == old(Text()) + [c]
    {
      s[len] := c;
      len := len + 1;
    }

    method EncodeChar(c: char, attribute: bool)
      requires Valid() && len + 10 <= s.Length
      modifies this`len, s
      ensures s == old(s) && len <= old(len) + 6
      ensures Valid() && Text() == old(Text()) + EscapeChar(c, attribute)
    {
      if c == '&' {
        Format("&amp;");
      } else if c == '<' {
        Format("&lt;");
      } else if c == '>' {
        Format("&gt;");
      } else if c == '"' {
        Format(if attribute then "&quot;" else "\"");
      } else if c == '\n' {
        Format(if attribute then "&#xA;" else "\n");
      } else if c == '\t' {
        Format(if attribute then "&#x9;" else "\t");
      } else if c == '\r' {
        Format("&#xD;");
      } else {
        Put(c);
      }
    }

    /** Appends the encoding of `txt` from `start` on, until `stop` or the end of the text is hit. */
    method AmpEncode(txt: string, start: nat, stop: int, attribute: bool)
      requires Valid() && start <= |txt|
      modifies this, s
      ensures Valid() && (s == old(s) || fresh(s))
      ensures Text() == old(Text()) + Escape(Slice(txt, start, stop), attribute)
      ensures !(start <= stop <= |txt|) ==> len + 10 <= s.Length
      ensures start == |txt| && old(Terminated()) ==> Terminated()
    {
      hide Escape, EscapeChar;
      var i := start;
      ghost var before := Text();
      NothingEscaped(attribute);
      assert txt[start..start] == "";
      while i != stop
        invariant start <= i <= |txt| && (start <= stop ==> i <= stop)
        invariant Valid() && (s == old(s) || fresh(s))
        invariant Text() == before + Escape(txt[start..i], attribute)
        invariant i == |txt| == start && old(Terminated()) ==> Terminated()
        decreases |txt| - i
      {
        Grow(10);
        if i == |txt| {
          assert txt[start..i] == txt[start..];
          return;
        }
        EncodeChar(txt[i], attribute);
        EscapeStep(txt, start, i, attribute);
        i := i + 1;
      }
    }

    /** The attributes of a tag, then the end of the opening tag. */
    method FinishOpening(attrs: seq<Attr>)
      requires Valid() && len + 3 <= s.Length
      modifies this, s
      ensures Valid() && (s == old(s) || fresh(s))
      ensures Text() == old(Text()) + PrintAttrs(attrs, 0) + ">"
    {
      hide Escape, FirstNamed, PrintAttrs, PrintAttr;
      ghost var before := Text();
      ghost var all := before + PrintAttrs(attrs, 0);
      var i := 0;
      while i < |attrs|
        invariant 0 <= i <= |attrs| && Valid() && len + 3 <= s.Length
        invariant s == old(s) || fresh(s)
        invariant Text() + PrintAttrs(attrs, i) == all
      {
        PrintAttrsIs(attrs, i);
        if FirstNamed(attrs, attrs[i].name) == i {
          ghost var done := Text();
          PutAttr(attrs[i]);
          Joined(done, PrintAttr(attrs[i]), PrintAttrs(attrs, i + 1));
        }
        i := i + 1;
      }
      PrintAttrsEnd(attrs);
      assert Text() + "" == Text();
      Format(">");
    }

    method PutAttr(a: Attr)
      requires Valid()
      modifies this, s
      ensures Valid() && len + 3 <= s.Length && (s == old(s) || fresh(s))
      ensures Text() == old(Text()) + PrintAttr(a)
    {
      hide Escape;
      Grow(|a.name| + 7);
      Format(" " + a.name + "=\"");
      AmpEncode(a.value, 0, -1, true);
      assert Slice(a.value, 0, -1) == a.value;
      Format("\"");
    }

    /** Prints the tags and the content of their parent around and behind them. */
    method PutTags(tags: seq<Xml>, txt: string, start: nat)
      requires Valid() && start <= |txt| && tags != []
      modifies this, s
      ensures Valid() && (s == old(s) || fresh(s))
      ensures Text() == old(Text()) + PrintAll(tags, txt, start)
      ensures txt == "" ==> Terminated()
      decreases tags
    {
      hide Escape, Slice, PrintAttrs, Print, PrintAll;
      ghost var before := Text();
      var x := tags[0];
      AmpEncode(txt, start, x.off, false);
      ghost var lead := Text();
      PutTag(x);
      ghost var shown := Text();
      var off := if x.off < |txt| then x.off else |txt|;
      if |tags| > 1 {
        PutTags(tags[1..], txt, off);
      } else {
        AmpEncode(txt, off, -1, false);
        SliceToEnd(txt, off);
      }
      PrintAllParts(tags, txt, start);
    }

    method PutTag(x: Xml)
      requires Valid()
      modifies this, s
      ensures Valid() && Terminated() && (s == old(s) || fresh(s))
      ensures Text() == old(Text()) + Print(x)
      decreases x
    {
      hide *;
      ghost var before := Text();
      PutOpening(x);
      PutContent(x);
      PutClosing(x);
      PrintParts(x, before);
    }

    method PutOpening(x: Xml)
      requires Valid()
      modifies this, s
      ensures Valid() && (s == old(s) || fresh(s))
      ensures Text() == old(Text()) + Opening(x)
    {
      hide PrintAttrs;
      Grow(|x.name| + 4);
      Format("<" + x.name);
      FinishOpening(x.attrs);
    }

    method PutClosing(x: Xml)
      requires Valid()
      modifies this, s
      ensures Valid() && Terminated() && (s == old(s) || fresh(s))
      ensures Text() == old(Text()) + Closing(x)
    {
      Grow(|x.name| + 4);
      Format("</" + x.name + ">");
    }

    method PutContent(x: Xml)
      requires Valid()
      modifies this, s
      ensures Valid() && (s == old(s) || fresh(s))
      ensures Text() == old(Text()) + PrintAll(x.kids, x.txt, 0)
      decreases x, 0
    {
      hide Escape, Slice, PrintAttrs, Print, PrintAll;
      if x.kids != [] {
        PutTags(x.kids, x.txt, 0);
      } else {
        AmpEncode(x.txt, 0, -1, false);
        SliceToEnd(x.txt, 0);
      }
    }
  }

  lemma {:induction false} PrintAttrsIs(attrs: seq<Attr>, i: nat)
    requires i < |attrs|
    ensures PrintAttrs(attrs, i) ==
            if FirstNamed(attrs, attrs[i].name) != i then PrintAttrs(attrs, i + 1)
            else PrintAttr(attrs[i]) + PrintAttrs(attrs, i + 1)
  {
    hide FirstNamed, PrintAttr;
  }

  lemma {:induction false} PrintAttrsEnd(attrs: seq<Attr>)
    ensures PrintAttrs(attrs, |attrs|) == ""
  {
  }

  lemma {:induction false} SliceToEnd(txt: string, start: nat)
    requires start <= |txt|
    ensures PrintAll([], txt, start) == Escape(Slice(txt, start, -1), false)
  {
    hide Escape;
  }

  lemma {:induction false} PrintAllParts(tags: seq<Xml>, txt: string, start: nat)
    requires start <= |txt| && tags != []
    ensures PrintAll(tags, txt, start) == Escape(Slice(txt, start, tags[0].off), false) + Print(tags[0])
                                          + PrintAll(tags[1..], txt, if tags[0].off < |txt| then tags[0].off else |txt|)
  {
    hide Escape, Slice, Print;
  }

  lemma {:induction false} Joined(a: string, b: string, c: string)
    ensures a + b + c == a + (b + c)
  {
  }

  lemma {:induction false} PrintParts(x: Xml, before: string)
    ensures before + Opening(x) + PrintAll(x.kids, x.txt, 0) + Closing(x) == before + Print(x)
  {
    hide PrintAll, Opening, Closing;
  }

  /** The whole of a tag as the root of a document, in a buffer that holds the text and its terminator. */
  method ToXml(x: Xml) returns (text: array<char>)
    ensures text.Length > 0 && text[..text.Length - 1] == Print(x) && text[text.Length - 1] == 0 as char
  {
    hide Print, PrintAll, Escape;
    var out := new Output();
    out.PutTags([x], "", 0);
    PrintRoot(x);
    text := Realloc(out.s, out.len + 1);
    assert text[..out.len] == out.s[..out.len];
  }

  lemma {:induction false} PrintRoot(x: Xml)
    ensures PrintAll([x], "", 0) == Print(x)
  {
    hide Print;
    NothingEscaped(false);
    PrintAllParts([x], "", 0);
    SliceToEnd("", 0);
    assert [x][1..] == [];
  }

  lemma {:induction false} NothingEscaped(attribute: bool)
    ensures Escape("", attribute) == ""
  {
  }

  lemma {:induction false} EscapeStep(txt: string, start: nat, i: nat, attribute: bool)
    requires start <= i < |txt|
    ensures Escape(txt[start..i + 1], attribute) == Escape(txt[start..i], attribute) + EscapeChar(txt[i], attribute)
  {
    hide EscapeChar;
    var c := [txt[i]];
    assert txt[start..i + 1] == txt[start..i] + c;
    EscapeConcat(txt[start..i], c, attribute);
    assert c[1..] == "";
    assert Escape(c, attribute) == EscapeChar(c[0], attribute) + Escape(c[1..], attribute);
  }

  /** The first attribute of a name is printed, in double quotes. */
  lemma {:induction false} PrintedAttr(n: string, a: string, v: string, w: string, t: string)
    ensures Print(Xml(n, [Attr(a, v), Attr(a, w)], t, [], 0)) ==
            "<" + n + (" " + a + "=\"" + Escape(v, true) + "\"") + ">" + Escape(t, false) + ("</" + n + ">")
  {
    hide Escape, PrintAttrs, PrintAll;
    TwoAttrs(a, v, w);
    NoKids(t);
  }

  /** A child is printed where its offset says. */
  lemma {:induction false} PrintedKid(n: string, m: string, t: string, u: string)
    ensures Print(Xml(n, [], t + u, [Xml(m, [], "", [], |t|)], 0)) ==
            "<" + n + ">" + (Escape(t, false) + ("<" + m + "></" + m + ">") + Escape(u, false)) + ("</" + n + ">")
  {
    hide Escape, PrintAttrs, PrintAll;
    PrintedBare(m, |t|);
    OneKid(t, u, Xml(m, [], "", [], |t|));
    NoAttrs();
    assert "<" + n + "" + ">" == "<" + n + ">";
  }

  lemma {:induction false} NoAttrs()
    ensures PrintAttrs([], 0) == ""
  {
  }

  lemma {:induction false} NoKids(t: string)
    ensures PrintAll([], t, 0) == Escape(t, false)
  {
    hide Escape;
    assert t[0..] == t;
  }

  /** A tag without content is printed in its long form. */
  lemma {:induction false} PrintedBare(n: string, off: nat)
    ensures Print(Xml(n, [], "", [], off)) == "<" + n + "></" + n + ">"
  {
    hide Escape;
    NothingEscaped(false);
    NoKids("");
    assert PrintAttrs([], 0) == "";
  }

  lemma {:induction false} TwoAttrs(a: string, v: string, w: string)
    ensures PrintAttrs([Attr(a, v), Attr(a, w)], 0) == " " + a + "=\"" + Escape(v, true) + "\""
  {
    hide Escape;
    var attrs := [Attr(a, v), Attr(a, w)];
    assert FirstNamed(attrs, a) == 0;
    assert PrintAttrs(attrs, 2) == "";
    assert PrintAttrs(attrs, 1) == "";
  }

  lemma {:induction false} OneKid(t: string, u: string, x: Xml)
    requires x.off == |t|
    ensures PrintAll([x], t + u, 0) == Escape(t, false) + Print(x) + Escape(u, false)
  {
    hide Escape, Print;
    assert (t + u)[0..|t|] == t && (t + u)[|t|..] == u && [x][1..] == [];
    assert PrintAll([], t + u, |t|) == Escape(u, false);
  }
}
