/** How the profile reader walks the properties of a group: along the sibling chain that the parser's
    insertions build. */
module PropertyWalk {
  import opened Nesting
  import opened TagIndex
  import opened XmlTree

  function NamesOf(tags: seq<Xml>): seq<string> {
    if tags == [] then [] else NamesOf(tags[..|tags| - 1]) + [tags[|tags| - 1].name]
  }

  ghost function TagNames(s: seq<Tag>): (r: seq<string>)
    ensures |r| == |s| && forall i | 0 <= i < |s| :: r[i] == s[i].name
  {
    if s == [] then [] else TagNames(s[..|s| - 1]) + [s[|s| - 1].name]
  }

  /** Every name once, where it first occurs. */
  function FirstNames(names: seq<string>): seq<string> {
    if names == [] then []
    else
      var init, last := names[..|names| - 1], names[|names| - 1];
      FirstNames(init) + if last in init then [] else [last]
  }

  lemma {:induction false} FirstsNames(s: seq<Tag>)
    ensures TagNames(Firsts(s)) == FirstNames(TagNames(s))
  {
    hide ByName;
    if s != [] {
      var init, last := s[..|s| - 1], s[|s| - 1];
      FirstsNames(init);
      HasName(init, last.name);
      var names := TagNames(s);
      assert names[..|names| - 1] == TagNames(init);
      if ByName(init, last.name) == [] {
        assert (Firsts(init) + [last])[..|Firsts(init)|] == Firsts(init);
      } else {
        assert Firsts(s) == Firsts(init);
      }
    }
  }

  lemma {:induction false} HasName(s: seq<Tag>, n: string)
    ensures n in TagNames(s) <==> ByName(s, n) != []
  {
    hide ByName;
    var names := TagNames(s);
    if n in names {
      var i :| 0 <= i < |names| && names[i] == n;
      ByNameHas(s, s[i]);
    }
    if ByName(s, n) != [] {
      var t := ByName(s, n)[0];
      var i :| 0 <= i < |s| && s[i] == t;
      assert names[i] == n;
    }
  }

  /** The children of a parsed tag, inserted one after the other at their offsets. */
  method IndexKids(group: Xml) returns (dest: Tag)
    requires WellPlaced(group)
    ensures dest.Walkable() && dest.Complete() && dest.sibs == Firsts(dest.kids)
    ensures TagNames(dest.kids) == NamesOf(group.kids)
    ensures |dest.kids| == |group.kids|
    ensures forall i {:trigger dest.kids[i]} | 0 <= i < |group.kids| :: dest.kids[i].off == group.kids[i].off
  {
    hide Tag.Walkable, Tag.Complete, Tag.Exact, Firsts, ByName, WellPlaced;
    dest := NewParent();
    TidyIs(dest);
    var i := 0;
    ghost var from := 0;
    InOrderKids(group);
    while i < |group.kids|
      invariant 0 <= i <= |group.kids| && fresh(dest) && fresh(dest.kids)
      invariant Tidy(dest) && TagNames(dest.kids) == NamesOf(group.kids[..i])
      invariant |dest.kids| == i
      invariant forall j {:trigger dest.kids[j]} | 0 <= j < i :: dest.kids[j].off == group.kids[j].off
      invariant InOrder(group.kids[i..], from, |group.txt|)
      invariant dest.kids != [] ==> dest.kids[|dest.kids| - 1].off == from
    {
      ghost var before := dest.kids;
      var kid := group.kids[i];
      assert group.kids[i..][0] == kid && group.kids[i..][1..] == group.kids[i + 1..];
      var tag := AppendNew(dest, kid.name, kid.off);
      assert dest.kids[..|dest.kids| - 1] == before;
      assert group.kids[..i + 1][..i] == group.kids[..i];
      from := kid.off;
      i := i + 1;
    }
    assert group.kids[..i] == group.kids;
    TidyIs(dest);
  }

  lemma {:induction false} InOrderKids(group: Xml)
    requires WellPlaced(group)
    ensures InOrder(group.kids, 0, |group.txt|) && group.kids[0..] == group.kids
  {
  }

  /** The properties the reader comes by: the first of each name, in document order. */
  method VisitProperties(group: Xml) returns (names: seq<string>)
    requires WellPlaced(group)
    ensures names == FirstNames(NamesOf(group.kids))
  {
    hide *;
    var dest := IndexKids(group);
    var visited := dest.VisitSiblings();
    FirstsNames(dest.kids);
    names := NamesAlong(visited);
  }

  method NamesAlong(tags: seq<Tag>) returns (names: seq<string>)
    ensures names == TagNames(tags)
  {
    names := [];
    var i := 0;
    while i < |tags|
      invariant 0 <= i <= |tags| && names == TagNames(tags[..i])
    {
      assert tags[..i + 1][..i] == tags[..i];
      names := names + [tags[i].name];
      i := i + 1;
    }
    assert tags[..i] == tags;
  }
}
