/** Which documents the parser accepts: those whose tags nest properly under one root.  A document is
    described by a tree of mixed content, and its tokens by writing that tree out. */
module Nesting {
  import opened Markup
  import opened Parsing
  import opened XmlTree

  /** Mixed content: a leaf is any token but a tag; `empty` marks a self-closing tag. */
  datatype Item = Leaf(token: Token) | Element(name: string, attrs: seq<Attr>, empty: bool, items: seq<Item>)

  predicate IsLeaf(t: Token) {
    t.Data? || t.Section? || t.Skip?
  }

  predicate AllLeaves(ts: seq<Token>) {
    ts == [] || (IsLeaf(ts[0]) && AllLeaves(ts[1..]))
  }

  predicate IsItem(item: Item) {
    match item
    case Leaf(t) => IsLeaf(t)
    case Element(_, _, empty, items) => (empty ==> items == []) && AreItems(items)
  }

  predicate AreItems(items: seq<Item>) {
    items == [] || (IsItem(items[0]) && AreItems(items[1..]))
  }

  function Flat(item: Item): seq<Token>
    decreases item
  {
    match item
    case Leaf(t) => [t]
    case Element(name, attrs, empty, items) =>
      if empty then [Open(name, attrs, true)] else [Open(name, attrs, false)] + FlatAll(items) + [Close(name)]
  }

  function FlatAll(items: seq<Item>): seq<Token>
    decreases items
  {
    if items == [] then [] else Flat(items[0]) + FlatAll(items[1..])
  }

  // ---------------------------------------------------------------- the tree a document stands for

  function LeafText(t: Token): string {
    if t.Data? || t.Section? then t.text else ""
  }

  /** The character content directly inside. */
  function TextOf(items: seq<Item>): string {
    if items == [] then ""
    else (match items[0] case Leaf(t) => LeafText(t) case Element(_, _, _, _) => "") + TextOf(items[1..])
  }

  /** The elements, each placed behind the character content before it. */
  function KidsOf(items: seq<Item>, off: nat): seq<Xml>
    decreases items
  {
    if items == [] then []
    else
      match items[0]
      case Leaf(t) => KidsOf(items[1..], off + |LeafText(t)|)
      case Element(_, _, _, _) => [TreeOf(items[0], off)] + KidsOf(items[1..], off)
  }

  function TreeOf(item: Item, off: nat): Xml
    requires item.Element?
    decreases item
  {
    Xml(item.name, item.attrs, TextOf(item.items), KidsOf(item.items, 0), off)
  }

  // ------------------------------------------------------------------- properly nested is accepted

  function Filled(x: Xml, items: seq<Item>): Xml {
    x.(txt := x.txt + TextOf(items), kids := x.kids + KidsOf(items, |x.txt|))
  }

  lemma {:induction false} BuildOne(t: Token, ts: seq<Token>, st: State)
    ensures Build([t] + ts, st) == match Step(st, t) case To(next) => Build(ts, next) case Stop(outcome) => outcome
  {
    assert ([t] + ts)[1..] == ts;
  }

  /** The state behind an element. */
  function Closed(st: State, item: Item): State
    requires !st.After? && item.Element?
  {
    if st.Before? then After(TreeOf(item, 0)) else st.(cur := AddKid(st.cur, TreeOf(item, |st.cur.txt|)))
  }

  lemma {:induction false} BuildElement(item: Item, ts: seq<Token>, st: State)
    requires item.Element? && IsItem(item) && !st.After?
    ensures Build(Flat(item) + ts, st) == Build(ts, Closed(st, item))
    decreases item, 1
  {
    hide Build;
    var name := item.name;
    var inside := Push(st, name, item.attrs);
    var x := inside.cur;
    if item.empty {
      BuildOne(Open(name, item.attrs, true), ts, st);
      PopPush(st, name, item.attrs);
      assert x == TreeOf(item, x.off);
    } else {
      assert Flat(item) + ts == [Open(name, item.attrs, false)] + (FlatAll(item.items) + ([Close(name)] + ts));
      BuildOne(Open(name, item.attrs, false), FlatAll(item.items) + ([Close(name)] + ts), st);
      BuildItems(item.items, [Close(name)] + ts, inside.above, x);
      BuildOne(Close(name), ts, inside.(cur := Filled(x, item.items)));
      PopPush(st, name, item.attrs);
      assert Filled(x, item.items) == TreeOf(item, x.off);
    }
  }

  lemma {:induction false} PopPush(st: State, name: string, attrs: seq<Attr>)
    requires !st.After?
    ensures var p := Push(st, name, attrs);
            forall x :: Pop(p.(cur := x)) == if st.Before? then After(x) else st.(cur := AddKid(st.cur, x))
    ensures var p := Push(st, name, attrs); p == p.(cur := p.cur)
  {
  }

  lemma {:induction false} BuildItems(items: seq<Item>, ts: seq<Token>, above: seq<Xml>, cur: Xml)
    requires AreItems(items)
    ensures Build(FlatAll(items) + ts, Inside(above, cur)) == Build(ts, Inside(above, Filled(cur, items)))
    decreases items, 0
  {
    hide Build, Flat;
    if items == [] {
      assert FlatAll(items) + ts == ts && Filled(cur, items) == cur;
    } else {
      var rest := FlatAll(items[1..]) + ts;
      assert FlatAll(items) + ts == Flat(items[0]) + rest;
      match items[0]
      case Leaf(t) =>
        FlatLeaf(t);
        BuildOne(t, rest, Inside(above, cur));
        var next := AddText(cur, LeafText(t));
        LeafStep(t, Inside(above, cur));
        BuildItems(items[1..], ts, above, next);
        FilledLeaf(cur, items);
      case Element(_, _, _, _) =>
        BuildElement(items[0], rest, Inside(above, cur));
        BuildItems(items[1..], ts, above, AddKid(cur, TreeOf(items[0], |cur.txt|)));
        FilledElement(cur, items);
    }
  }

  lemma {:induction false} FlatLeaf(t: Token)
    ensures Flat(Leaf(t)) == [t]
  {
  }

  lemma {:induction false} LeafStep(t: Token, st: State)
    requires IsLeaf(t)
    ensures Step(st, t) == To(Content(st, LeafText(t)))
  {
    if t.Skip? && st.Inside? {
      assert st.cur.txt + "" == st.cur.txt;
    }
  }

  lemma {:induction false} FilledLeaf(x: Xml, items: seq<Item>)
    requires items != [] && items[0].Leaf?
    ensures Filled(AddText(x, LeafText(items[0].token)), items[1..]) == Filled(x, items)
  {
    var t := LeafText(items[0].token);
    assert x.txt + t + TextOf(items[1..]) == x.txt + (t + TextOf(items[1..]));
  }

  lemma {:induction false} FilledElement(x: Xml, items: seq<Item>)
    requires items != [] && items[0].Element?
    ensures Filled(AddKid(x, TreeOf(items[0], |x.txt|)), items[1..]) == Filled(x, items)
  {
    hide TreeOf;
    var kid := TreeOf(items[0], |x.txt|);
    assert x.kids + [kid] + KidsOf(items[1..], |x.txt|) == x.kids + ([kid] + KidsOf(items[1..], |x.txt|));
    assert "" + TextOf(items[1..]) == TextOf(items[1..]);
  }

  // ------------------------------------------------------------------- accepted is properly nested

  /** Nothing but leaves can follow the root. */
  lemma {:induction false} AfterRoot(ts: seq<Token>, root: Xml)
    ensures Build(ts, After(root)) == Parsed(root) <==> AllLeaves(ts)
    ensures Build(ts, After(root)).Parsed? ==> AllLeaves(ts)
  {
    if ts != [] {
      AfterRoot(ts[1..], root);
    }
  }

  /** Inside an open tag, the tokens up to its closing tag are the content of an element. */
  lemma {:induction false} Descend(ts: seq<Token>, above: seq<Xml>, cur: Xml)
      returns (items: seq<Item>, rest: seq<Token>)
    requires Build(ts, Inside(above, cur)).Parsed?
    ensures AreItems(items) && ts == FlatAll(items) + ([Close(cur.name)] + rest)
    decreases |ts|
  {
    hide FlatAll, Flat, Build;
    Unfinished(above, cur);
    var t, more := ts[0], ts[1..];
    assert ts == [t] + more;
    BuildOne(t, more, Inside(above, cur));
    if t.Close? {
      items, rest := [], more;
      FlatNone();
      assert ts == FlatAll(items) + ([Close(cur.name)] + rest);
    } else if t.Open? {
      var item;
      item, more := DescendElement(ts, Inside(above, cur));
      items, rest := Descend(more, above, AddKid(cur, TreeOf(item, |cur.txt|)));
      FlatSome(item, items);
      assert ts == (Flat(item) + FlatAll(items)) + ([Close(cur.name)] + rest);
      items := [item] + items;
    } else {
      LeafStep(t, Inside(above, cur));
      items, rest := Descend(more, above, AddText(cur, LeafText(t)));
      FlatSome(Leaf(t), items);
      FlatLeaf(t);
      assert ts == ([t] + FlatAll(items)) + ([Close(cur.name)] + rest);
      items := [Leaf(t)] + items;
    }
  }

  lemma {:induction false} DescendElement(ts: seq<Token>, st: State) returns (item: Item, rest: seq<Token>)
    requires Build(ts, st).Parsed? && !st.After? && ts != [] && ts[0].Open?
    ensures IsItem(item) && item.Element? && ts == Flat(item) + rest && |rest| < |ts|
    ensures Build(rest, Closed(st, item)) == Build(ts, st)
    decreases |ts|, 0
  {
    hide FlatAll, Build;
    var Open(name, attrs, selfClosing) := ts[0];
    var more := ts[1..];
    assert ts == [ts[0]] + more;
    BuildOne(ts[0], more, st);
    if selfClosing {
      item, rest := Element(name, attrs, true, []), more;
    } else {
      var inside := Push(st, name, attrs);
      var items;
      items, rest := Descend(more, inside.above, inside.cur);
      item := Element(name, attrs, false, items);
      assert ts == Flat(item) + rest;
    }
    BuildElement(item, rest, st);
  }

  lemma {:induction false} Unfinished(above: seq<Xml>, cur: Xml)
    ensures !Build([], Inside(above, cur)).Parsed?
  {
  }

  lemma {:induction false} FlatNone()
    ensures FlatAll([]) == []
  {
  }

  lemma {:induction false} FlatSome(item: Item, items: seq<Item>)
    requires IsItem(item) && AreItems(items)
    ensures AreItems([item] + items) && FlatAll([item] + items) == Flat(item) + FlatAll(items)
  {
    hide Flat;
    assert ([item] + items)[1..] == items;
  }

  /** The tokens of a document: one root element among leaves. */
  ghost predicate IsDocument(ts: seq<Token>, pre: seq<Token>, root: Item, post: seq<Token>) {
    && AllLeaves(pre) && AllLeaves(post) && root.Element? && IsItem(root)
    && ts == pre + Flat(root) + post
  }

  lemma {:induction false} BeforeRoot(pre: seq<Token>, ts: seq<Token>)
    requires AllLeaves(pre)
    ensures Build(pre + ts, Before) == Build(ts, Before)
  {
    if pre == [] {
      assert pre + ts == ts;
    } else {
      assert pre + ts == [pre[0]] + (pre[1..] + ts);
      BuildOne(pre[0], pre[1..] + ts, Before);
      BeforeRoot(pre[1..], ts);
    }
  }

  /** A document gives the tree it stands for. */
  lemma {:induction false} DocumentBuilds(ts: seq<Token>, pre: seq<Token>, root: Item, post: seq<Token>)
    requires IsDocument(ts, pre, root, post)
    ensures Build(ts, Before) == Parsed(TreeOf(root, 0))
  {
    hide Build, Flat;
    assert ts == pre + (Flat(root) + post);
    BeforeRoot(pre, Flat(root) + post);
    BuildElement(root, post, Before);
    AfterRoot(post, TreeOf(root, 0));
  }

  lemma {:induction false} BuildsDocument(ts: seq<Token>) returns (pre: seq<Token>, root: Item, post: seq<Token>)
    requires Build(ts, Before).Parsed?
    ensures IsDocument(ts, pre, root, post)
    decreases |ts|
  {
    hide Flat;
    var t, more := ts[0], ts[1..];
    if IsLeaf(t) {
      LeafStep(t, Before);
      pre, root, post := BuildsDocument(more);
      assert ([t] + pre)[1..] == pre;
      assert ts == [t] + pre + Flat(root) + post;
      pre := [t] + pre;
    } else {
      root, post := DescendElement(ts, Before);
      AfterRoot(post, TreeOf(root, 0));
      pre := [];
      assert ts == pre + Flat(root) + post;
    }
  }

  /** No error is reported if and only if the tags nest properly under one root. */
  lemma {:induction false} AcceptedIffNested(ts: seq<Token>)
    ensures Build(ts, Before).Parsed? <==> exists pre, root, post :: IsDocument(ts, pre, root, post)
  {
    hide Build, IsDocument;
    if Build(ts, Before).Parsed? {
      var pre, root, post := BuildsDocument(ts);
    } else if exists pre, root, post :: IsDocument(ts, pre, root, post) {
      var pre, root, post :| IsDocument(ts, pre, root, post);
      DocumentBuilds(ts, pre, root, post);
    }
  }

  // ------------------------------------------------------------------------------------- offsets

  /** Siblings in the order of their offsets, which lie within the parent's content. */
  predicate InOrder(tags: seq<Xml>, from: nat, limit: nat)
    decreases tags
  {
    || tags == []
    || (from <= tags[0].off <= limit && WellPlaced(tags[0]) && InOrder(tags[1..], tags[0].off, limit))
  }

  predicate WellPlaced(x: Xml)
    decreases x
  {
    InOrder(x.kids, 0, |x.txt|)
  }

  lemma {:induction false} KidsInOrder(items: seq<Item>, from: nat, off: nat)
    requires from <= off
    ensures InOrder(KidsOf(items, off), from, off + |TextOf(items)|)
    decreases items, 0
  {
    if items != [] {
      match items[0]
      case Leaf(t) => KidsInOrder(items[1..], from, off + |LeafText(t)|);
      case Element(_, _, _, _) =>
        TreeWellPlaced(items[0], off);
        KidsInOrder(items[1..], off, off);
    }
  }

  lemma {:induction false} TreeWellPlaced(item: Item, off: nat)
    requires item.Element?
    ensures WellPlaced(TreeOf(item, off))
    decreases item, 1
  {
    KidsInOrder(item.items, 0, 0);
  }

  /** Every tree the parser gives has its tags in document order, at offsets within the content. */
  lemma {:induction false} ParsedWellPlaced(s: string)
    requires Parse(s).Parsed?
    ensures WellPlaced(Parse(s).root) && Parse(s).root.off == 0
  {
    hide Build, Tokens, WellPlaced;
    var (marked, order) := Utf16.OrderMark(s);
    var text := if marked then Utf16.Transcode(s, 2, order) else s;
    var ts := Tokens(CString(text[..|text| - 1]), text[|text| - 1]);
    var pre, root, post := BuildsDocument(ts);
    DocumentBuilds(ts, pre, root, post);
    TreeWellPlaced(root, 0);
  }
}
