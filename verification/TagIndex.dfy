/** The three intrusive lists that thread the children of one tag.

    Every child sits on `ordered` (document order), on `next` (the later children of its own
    name), and the first child of each name sits on `sibling`.  The ghost sequence `kids` is the
    plain list the chains have to agree with, and the ghost sequence `sibs` is what the `sibling`
    chain visits. */
module TagIndex {

  // ------------------------------------------------------------------------------ lists of tags

  function At(s: seq<Tag>, i: nat): Tag? {
    if i < |s| then s[i] else null
  }

  /** The tags called `n`, in the order of `s`: what a lookup by name has to agree with. */
  ghost function ByName(s: seq<Tag>, n: string): (r: seq<Tag>)
    ensures forall i {:trigger r[i]} | 0 <= i < |r| :: r[i] in s && r[i].name == n
  {
    if s == [] then []
    else (if s[0].name == n then [s[0]] else []) + ByName(s[1..], n)
  }

  /** The first tag of every name, in the order of `s`. */
  ghost function Firsts(s: seq<Tag>): seq<Tag> {
    if s == [] then []
    else
      var init, last := s[..|s| - 1], s[|s| - 1];
      Firsts(init) + (if ByName(init, last.name) == [] then [last] else [])
  }

  ghost predicate Distinct(s: seq<Tag>) {
    s == [] || (s[0] !in s[1..] && Distinct(s[1..]))
  }

  /** The same property by index; kept out of the definition because pairs of indices are costly. */
  lemma {:induction false} DistinctPairs(s: seq<Tag>)
    ensures Distinct(s) <==> forall i, j | 0 <= i < j < |s| :: s[i] != s[j]
  {
    if s != [] {
      DistinctPairs(s[1..]);
      assert forall i | 0 < i < |s| :: s[i] == s[1..][i - 1];
    }
  }

  ghost function InsertedAt(s: seq<Tag>, p: nat, x: Tag): (r: seq<Tag>)
    requires p <= |s|
    ensures |r| == |s| + 1 && r[p] == x
    ensures forall i {:trigger r[i]} | 0 <= i < p :: r[i] == s[i]
    ensures forall i {:trigger r[i]} | p < i < |r| :: r[i] == s[i - 1]
  {
    seq(|s| + 1, i requires 0 <= i <= |s| => if i < p then s[i] else if i == p then x else s[i - 1])
  }

  ghost function RemovedAt(s: seq<Tag>, p: nat): (r: seq<Tag>)
    requires p < |s|
    ensures |r| == |s| - 1
    ensures forall i {:trigger r[i]} | 0 <= i < p :: r[i] == s[i]
    ensures forall i {:trigger r[i]} | p <= i < |r| :: r[i] == s[i + 1]
  {
    seq(|s| - 1, i requires 0 <= i < |s| - 1 => if i < p then s[i] else s[i + 1])
  }

  lemma {:induction false} ByNameConcat(a: seq<Tag>, b: seq<Tag>, n: string)
    ensures ByName(a + b, n) == ByName(a, n) + ByName(b, n)
  {
    if a == [] {
      assert a + b == b;
    } else {
      assert (a + b)[1..] == a[1..] + b;
      ByNameConcat(a[1..], b, n);
    }
  }

  lemma {:induction false} ByNameDistinct(s: seq<Tag>, n: string)
    requires Distinct(s)
    ensures Distinct(ByName(s, n))
  {
    if s != [] {
      ByNameDistinct(s[1..], n);
      var rest := ByName(s[1..], n);
      assert s[0] !in rest;
      assert ByName(s, n) == if s[0].name == n then [s[0]] + rest else rest;
    }
  }

  lemma {:induction false} ByNameHas(s: seq<Tag>, t: Tag)
    requires t in s
    ensures t in ByName(s, t.name)
  {
    if s[0] != t {
      ByNameHas(s[1..], t);
    }
  }

  lemma {:induction false} ByNameInserted(s: seq<Tag>, p: nat, x: Tag, n: string)
    requires p <= |s|
    ensures ByName(s, n) == ByName(s[..p], n) + ByName(s[p..], n)
    ensures ByName(InsertedAt(s, p, x), n)
         == ByName(s[..p], n) + (if x.name == n then [x] else []) + ByName(s[p..], n)
  {
    assert InsertedAt(s, p, x) == s[..p] + [x] + s[p..];
    assert s == s[..p] + s[p..];
    ByNameConcat(s[..p], s[p..], n);
    ByNameConcat(s[..p] + [x], s[p..], n);
    ByNameConcat(s[..p], [x], n);
  }

  lemma {:induction false} ByNameRemoved(s: seq<Tag>, p: nat, n: string)
    requires p < |s|
    ensures ByName(s, n)
         == ByName(s[..p], n) + (if s[p].name == n then [s[p]] else []) + ByName(s[p + 1..], n)
    ensures ByName(RemovedAt(s, p), n) == ByName(s[..p], n) + ByName(s[p + 1..], n)
  {
    assert RemovedAt(s, p) == s[..p] + s[p + 1..];
    assert s == s[..p] + s[p..];
    ByNameConcat(s[..p], s[p + 1..], n);
    ByNameConcat(s[..p], s[p..], n);
  }

  /** Tags of other names in front do not change the first tag called `n`. */
  lemma {:induction false} ByNameAt(s: seq<Tag>, n: string, j: nat)
    requires j <= |s|
    requires forall i | 0 <= i < j :: s[i].name != n
    requires j < |s| ==> s[j].name == n
    ensures At(ByName(s, n), 0) == At(s, j)
  {
    if j > 0 {
      ByNameAt(s[1..], n, j - 1);
    }
  }

  lemma {:induction false} FirstsAppended(s: seq<Tag>, x: Tag)
    ensures Firsts(s + [x]) == Firsts(s) + if ByName(s, x.name) == [] then [x] else []
  {
    hide ByName;
    assert (s + [x])[..|s|] == s;
  }

  lemma {:induction false} ByNameOfNone(n: string)
    ensures ByName([], n) == []
  {
  }

  lemma {:induction false} ByNameOfOne(t: Tag, n: string)
    ensures ByName([t], n) == if t.name == n then [t] else []
  {
  }

  /** `Firsts` has one entry for every name, the first tag of that name. */
  lemma {:induction false} FirstsByName(s: seq<Tag>, n: string)
    ensures ByName(Firsts(s), n) == if ByName(s, n) == [] then [] else [ByName(s, n)[0]]
  {
    hide ByName;
    ByNameOfNone(n);
    if s != [] {
      var init, last := s[..|s| - 1], s[|s| - 1];
      FirstsByName(init, n);
      ByNameOfOne(last, n);
      assert s == init + [last];
      ByNameConcat(init, [last], n);
      ByNameConcat(Firsts(init), if ByName(init, last.name) == [] then [last] else [], n);
    }
  }

  // ------------------------------------------------------------------------------------- chains

  ghost predicate OrderedChain(s: seq<Tag>)
    reads s`ordered
  {
    forall i {:trigger s[i].ordered} | 0 <= i < |s| :: s[i].ordered == At(s, i + 1)
  }

  ghost predicate SiblingChain(s: seq<Tag>)
    reads s`sibling
  {
    forall i {:trigger s[i].sibling} | 0 <= i < |s| :: s[i].sibling == At(s, i + 1)
  }

  ghost predicate NextChain(s: seq<Tag>)
    reads s`next
  {
    forall i {:trigger s[i].next} | 0 <= i < |s| :: s[i].next == At(s, i + 1)
  }

  ghost predicate NextChainOf(s: seq<Tag>, n: string)
    reads s`next
  {
    forall i: nat {:trigger ByName(s, n)[i].next} | i < |ByName(s, n)| ::
      assert ByName(s, n)[i] in s;
      ByName(s, n)[i].next == At(ByName(s, n), i + 1)
  }

  /** Every name has its own `next` chain. */
  ghost predicate NextChains(s: seq<Tag>)
    reads s`next
  {
    forall n: string :: NextChainOf(s, n)
  }

  ghost predicate ChildrenOf(s: seq<Tag>, parent: Tag)
    reads s`parent
  {
    forall i {:trigger s[i].parent} | 0 <= i < |s| :: s[i].parent == parent
  }

  ghost predicate SortedByOffset(s: seq<Tag>)
    reads s`off
  {
    forall i, j {:trigger s[i].off, s[j].off} | 0 <= i < j < |s| :: s[i].off <= s[j].off
  }

  /** `s` splits at `p` into the tags at or before offset `off` and those after it. */
  ghost predicate SplitsAt(s: seq<Tag>, p: nat, off: nat)
    reads s`off
  {
    && p <= |s|
    && (forall i | 0 <= i < p :: s[i].off <= off)
    && (forall i | p <= i < |s| :: off < s[i].off)
  }

  /** `sibs` holds some of the tags of `s`, each once, beginning with the first. */
  ghost predicate Selection(s: seq<Tag>, sibs: seq<Tag>) {
    && Distinct(sibs)
    && (forall i {:trigger sibs[i]} | 0 <= i < |sibs| :: sibs[i] in s)
    && At(sibs, 0) == At(s, 0)
  }

  /** Looking a name up on the sibling chain `sibs` finds the first of the tags of that name. */
  ghost predicate Agrees(s: seq<Tag>, sibs: seq<Tag>) {
    forall n: string :: At(ByName(sibs, n), 0) == At(ByName(s, n), 0)
  }

  /** Every entry of `sibs` is the first tag of its name. */
  ghost predicate OnlyFirsts(s: seq<Tag>, sibs: seq<Tag>) {
    forall i | 0 <= i < |sibs| :: ByName(s, sibs[i].name) != [] && ByName(s, sibs[i].name)[0] == sibs[i]
  }

  lemma {:induction false} InsertedShape(s: seq<Tag>, p: nat, x: Tag, off: nat)
    requires Distinct(s) && SortedByOffset(s) && SplitsAt(s, p, off) && x !in s && x.off == off
    ensures Distinct(InsertedAt(s, p, x)) && SortedByOffset(InsertedAt(s, p, x))
    ensures forall t | t in InsertedAt(s, p, x) :: t in s || t == x
  {
    var r := InsertedAt(s, p, x);
    DistinctPairs(s);
    forall i, j | 0 <= i < j < |r|
      ensures r[i] != r[j] && r[i].off <= r[j].off
    {
      assert r[i] == if i < p then s[i] else if i == p then x else s[i - 1];
      assert r[j] == if j < p then s[j] else if j == p then x else s[j - 1];
    }
    DistinctPairs(r);
  }

  lemma {:induction false} RemovedShape(s: seq<Tag>, p: nat)
    requires Distinct(s) && SortedByOffset(s) && p < |s|
    ensures Distinct(RemovedAt(s, p)) && SortedByOffset(RemovedAt(s, p))
    ensures forall t | t in RemovedAt(s, p) :: t in s && t != s[p]
  {
    var r := RemovedAt(s, p);
    DistinctPairs(s);
    forall i, j | 0 <= i < j < |r|
      ensures r[i] != r[j] && r[i].off <= r[j].off
    {
      assert r[i] == if i < p then s[i] else s[i + 1];
      assert r[j] == if j < p then s[j] else s[j + 1];
    }
    DistinctPairs(r);
  }

  lemma {:induction false} InsertedDistinct(s: seq<Tag>, p: nat, x: Tag)
    requires Distinct(s) && x !in s && p <= |s|
    ensures Distinct(InsertedAt(s, p, x))
  {
    var r := InsertedAt(s, p, x);
    DistinctPairs(s);
    forall i, j | 0 <= i < j < |r|
      ensures r[i] != r[j]
    {
      assert r[i] == if i < p then s[i] else if i == p then x else s[i - 1];
      assert r[j] == if j < p then s[j] else if j == p then x else s[j - 1];
    }
    DistinctPairs(r);
  }

  lemma {:induction false} RemovedDistinct(s: seq<Tag>, p: nat)
    requires Distinct(s) && p < |s|
    ensures Distinct(RemovedAt(s, p)) && s[p] !in RemovedAt(s, p)
  {
    var r := RemovedAt(s, p);
    DistinctPairs(s);
    forall i, j | 0 <= i < j < |r|
      ensures r[i] != r[j]
    {
      assert r[i] == if i < p then s[i] else s[i + 1];
      assert r[j] == if j < p then s[j] else s[j + 1];
    }
    DistinctPairs(r);
  }

  lemma {:induction false} ByNameUpTo(s: seq<Tag>, n: string, off: nat)
    requires forall i | 0 <= i < |s| :: s[i].off <= off
    ensures forall i {:trigger ByName(s, n)[i]} | 0 <= i < |ByName(s, n)| :: ByName(s, n)[i].off <= off
  {
    var r := ByName(s, n);
    assert forall i {:trigger r[i]} | 0 <= i < |r| :: r[i] in s;
  }

  lemma {:induction false} ByNamePast(s: seq<Tag>, n: string, off: nat)
    requires forall i | 0 <= i < |s| :: off < s[i].off
    ensures forall i {:trigger ByName(s, n)[i]} | 0 <= i < |ByName(s, n)| :: off < ByName(s, n)[i].off
  {
    var r := ByName(s, n);
    assert forall i {:trigger r[i]} | 0 <= i < |r| :: r[i] in s;
  }

  /** A tag that goes to its place among all tags goes to its place among those of its name. */
  lemma {:induction false} PlaceByName(s: seq<Tag>, p: nat, x: Tag, off: nat, q: nat)
    requires SplitsAt(s, p, off)
    requires q <= |ByName(s, x.name)|
    requires forall i | 0 <= i < q :: ByName(s, x.name)[i].off <= off
    requires q < |ByName(s, x.name)| ==> off < ByName(s, x.name)[q].off
    ensures ByName(InsertedAt(s, p, x), x.name) == InsertedAt(ByName(s, x.name), q, x)
  {
    hide ByName;
    var before, after := ByName(s[..p], x.name), ByName(s[p..], x.name);
    ByNameInserted(s, p, x, x.name);
    ByNameUpTo(s[..p], x.name, off);
    ByNamePast(s[p..], x.name, off);
    WalkStops(before, after, q, off);
    assert (before + after)[..q] == before && (before + after)[q..] == after;
    assert InsertedAt(before + after, q, x) == before + [x] + after;
  }

  /** A walk along `a + b` that stops at the first tag past `off` stops where `a` meets `b`. */
  lemma {:induction false} WalkStops(a: seq<Tag>, b: seq<Tag>, q: nat, off: nat)
    requires forall i | 0 <= i < |a| :: a[i].off <= off
    requires forall i | 0 <= i < |b| :: off < b[i].off
    requires q <= |a + b|
    requires forall i | 0 <= i < q :: (a + b)[i].off <= off
    requires q < |a + b| ==> off < (a + b)[q].off
    ensures q == |a|
  {
    assert forall i | 0 <= i < |a| :: (a + b)[i] == a[i];
    assert b != [] ==> (a + b)[|a|] == b[0];
  }

  /** Re-linking the tags of one name leaves the chains of all other names alone. */
  lemma {:induction false} NamesKept(s: seq<Tag>, p: nat, x: Tag)
    requires p <= |s|
    requires forall n: string | n != x.name :: NextChainOf(s, n)
    requires NextChain(ByName(InsertedAt(s, p, x), x.name))
    ensures NextChains(InsertedAt(s, p, x))
  {
    forall n: string
      ensures NextChainOf(InsertedAt(s, p, x), n)
    {
      NameKept(s, p, x, n);
    }
  }

  lemma {:induction false} NameKept(s: seq<Tag>, p: nat, x: Tag, n: string)
    requires p <= |s|
    requires n != x.name ==> NextChainOf(s, n)
    requires n == x.name ==> NextChain(ByName(InsertedAt(s, p, x), n))
    ensures NextChainOf(InsertedAt(s, p, x), n)
  {
    if n != x.name {
      ByNameInserted(s, p, x, n);
      assert ByName(InsertedAt(s, p, x), n) == ByName(s, n);
    }
  }

  /** A tag that comes first of its name heads the tags of its name, on the list and on a chain
      where it stands in front of every entry past its offset. */
  lemma {:induction false} AgreesInserted(s: seq<Tag>, p: nat, sibs: seq<Tag>, q: nat, x: Tag, off: nat)
    requires SplitsAt(s, p, off) && q <= |sibs|
    requires forall n: string | n != x.name :: At(ByName(sibs, n), 0) == At(ByName(s, n), 0)
    requires forall i | 0 <= i < |ByName(s, x.name)| :: off < ByName(s, x.name)[i].off
    requires forall i | 0 <= i < |sibs| && sibs[i].name == x.name :: off < sibs[i].off
    requires forall i | 0 <= i < q :: sibs[i].off <= off
    ensures Agrees(InsertedAt(s, p, x), InsertedAt(sibs, q, x))
  {
    forall n: string
      ensures At(ByName(InsertedAt(sibs, q, x), n), 0) == At(ByName(InsertedAt(s, p, x), n), 0)
    {
      if n == x.name {
        PlaceByName(s, p, x, off, 0);
        ByNameAt(InsertedAt(sibs, q, x), n, q);
      } else {
        ByNameInserted(s, p, x, n);
        ByNameInserted(sibs, q, x, n);
      }
    }
  }

  /** A later tag of a name already present changes no first tag. */
  lemma {:induction false} AgreesLater(s: seq<Tag>, p: nat, sibs: seq<Tag>, x: Tag, off: nat)
    requires SplitsAt(s, p, off) && Agrees(s, sibs)
    requires ByName(s, x.name) != [] && ByName(s, x.name)[0].off <= off
    ensures Agrees(InsertedAt(s, p, x), sibs)
  {
    forall n: string
      ensures At(ByName(sibs, n), 0) == At(ByName(InsertedAt(s, p, x), n), 0)
    {
      ByNameInserted(s, p, x, n);
      var after := ByName(s[p..], n);
      assert forall i | 0 <= i < |after| :: off < after[i].off;
    }
  }

  /** If the first tag of a name lies past `off`, all tags of that name do. */
  lemma {:induction false} AllPast(s: seq<Tag>, p: nat, n: string, off: nat)
    requires SplitsAt(s, p, off)
    requires ByName(s, n) != [] ==> off < ByName(s, n)[0].off
    ensures forall i | 0 <= i < |ByName(s, n)| :: off < ByName(s, n)[i].off
    ensures forall t | t in s && t.name == n :: off < t.off
  {
    hide ByName;
    assert s == s[..p] + s[p..];
    ByNameConcat(s[..p], s[p..], n);
    ByNameUpTo(s[..p], n, off);
    ByNamePast(s[p..], n, off);
    forall t | t in s && t.name == n
      ensures off < t.off
    {
      ByNameHas(s, t);
    }
  }

  lemma {:induction false} AgreesRemoved(s: seq<Tag>, sibs: seq<Tag>, j: nat)
    requires Agrees(s, sibs) && j < |sibs|
    ensures forall n: string | n != sibs[j].name :: At(ByName(RemovedAt(sibs, j), n), 0) == At(ByName(s, n), 0)
  {
    forall n: string | n != sibs[j].name
      ensures At(ByName(RemovedAt(sibs, j), n), 0) == At(ByName(s, n), 0)
    {
      ByNameRemoved(sibs, j, n);
    }
  }

  /** The chain `r` left by putting the first tag of its name on the chain `base`. */
  lemma {:induction false} JoinedChain(s: seq<Tag>, p: nat, base: seq<Tag>, q: nat, x: Tag, off: nat)
    requires s != [] && SplitsAt(s, p, off) && x !in s
    requires Selection(s, base) && q <= |base|
    requires forall n: string | n != x.name :: At(ByName(base, n), 0) == At(ByName(s, n), 0)
    requires ByName(s, x.name) != [] ==> off < ByName(s, x.name)[0].off
    requires forall i | 0 <= i < q :: base[i].off <= off
    requires q < |base| ==> off < base[q].off
    ensures Selection(InsertedAt(s, p, x), InsertedAt(base, q, x))
    ensures Agrees(InsertedAt(s, p, x), InsertedAt(base, q, x))
  {
    AllPast(s, p, x.name, off);
    assert forall i | 0 <= i < |base| && base[i].name == x.name :: base[i] in s && off < base[i].off;
    AgreesInserted(s, p, base, q, x, off);
    SelectionInserted(s, p, base, q, x);
  }

  lemma {:induction false} SelectionLater(s: seq<Tag>, p: nat, base: seq<Tag>, x: Tag)
    requires 0 < p <= |s| && Selection(s, base)
    ensures Selection(InsertedAt(s, p, x), base)
  {
    forall i | 0 <= i < |base|
      ensures base[i] in InsertedAt(s, p, x)
    {
      var k :| 0 <= k < |s| && s[k] == base[i];
      assert InsertedAt(s, p, x)[if k < p then k else k + 1] == base[i];
    }
  }

  lemma {:induction false} SelectionInserted(s: seq<Tag>, p: nat, base: seq<Tag>, q: nat, x: Tag)
    requires s != [] && p <= |s| && x !in s
    requires Selection(s, base) && q <= |base|
    requires p == 0 <==> q == 0
    ensures Selection(InsertedAt(s, p, x), InsertedAt(base, q, x))
  {
    var r, b := InsertedAt(s, p, x), InsertedAt(base, q, x);
    InsertedDistinct(base, q, x);
    forall i | 0 <= i < |b|
      ensures b[i] in r
    {
      if i == q {
        assert r[p] == x;
      } else {
        var k :| 0 <= k < |s| && s[k] == b[i];
        assert r[if k < p then k else k + 1] == b[i];
      }
    }
  }

  lemma {:induction false} NewFirst(s: seq<Tag>, p: nat, x: Tag, off: nat)
    requires SplitsAt(s, p, off)
    requires ByName(s, x.name) != [] ==> off < ByName(s, x.name)[0].off
    ensures At(ByName(InsertedAt(s, p, x), x.name), 0) == x
  {
    PlaceByName(s, p, x, off, 0);
  }

  lemma {:induction false} OtherName(s: seq<Tag>, p: nat, x: Tag, n: string)
    requires p <= |s| && n != x.name
    ensures ByName(InsertedAt(s, p, x), n) == ByName(s, n)
  {
    ByNameInserted(s, p, x, n);
  }

  /** The new chain visits first children only, unless the old first of its name is still on it. */
  lemma {:induction false} ExactJoined(s: seq<Tag>, p: nat, base: seq<Tag>, q: nat, x: Tag, off: nat)
    requires SplitsAt(s, p, off) && q <= |base| && OnlyFirsts(s, base) && x !in base
    requires ByName(s, x.name) != [] ==> off < ByName(s, x.name)[0].off
    ensures OnlyFirsts(InsertedAt(s, p, x), InsertedAt(base, q, x))
       <==> forall i | 0 <= i < |base| :: base[i].name != x.name
  {
    var r, b := InsertedAt(s, p, x), InsertedAt(base, q, x);
    NewFirst(s, p, x, off);
    if i :| 0 <= i < |base| && base[i].name == x.name {
      assert b[if i < q then i else i + 1] == base[i] != x;
    } else {
      forall i | 0 <= i < |b|
        ensures ByName(r, b[i].name) != [] && ByName(r, b[i].name)[0] == b[i]
      {
        if i != q {
          assert b[i] == base[if i < q then i else i - 1];
          OtherName(s, p, x, b[i].name);
        }
      }
    }
  }

  /** ... which is so exactly when the new tag goes in front of a first child of its own name. */
  lemma {:induction false} ExactFirst(s: seq<Tag>, p: nat, sibs: seq<Tag>, j: nat, base: seq<Tag>, q: nat, x: Tag,
      off: nat)
    requires s != [] && SplitsAt(s, p, off) && x !in s
    requires Selection(s, sibs) && OnlyFirsts(s, sibs)
    requires j <= |sibs| && At(sibs, j) == At(ByName(s, x.name), 0)
    requires j < |sibs| ==> off < sibs[j].off
    requires forall i | 0 <= i < j :: sibs[i].name != x.name
    requires base == if 0 < j < |sibs| then RemovedAt(sibs, j) else sibs
    requires q <= |base|
    ensures OnlyFirsts(InsertedAt(s, p, x), InsertedAt(base, q, x)) <==> !(off < s[0].off && s[0].name == x.name)
  {
    hide ByName;
    DistinctPairs(sibs);
    assert forall i | 0 <= i < |sibs| && sibs[i].name == x.name :: i == j;
    assert forall i | 0 <= i < |base| :: base[i] in s && base[i] == if j == 0 || i < j then sibs[i] else sibs[i + 1];
    ExactJoined(s, p, base, q, x, off);
    assert sibs[0] == s[0];
  }

  lemma {:induction false} LaterFirsts(s: seq<Tag>, p: nat, sibs: seq<Tag>, x: Tag, off: nat)
    requires SplitsAt(s, p, off)
    requires ByName(s, x.name) != [] && ByName(s, x.name)[0].off <= off
    ensures OnlyFirsts(s, sibs) ==> OnlyFirsts(InsertedAt(s, p, x), sibs)
  {
    forall n: string | ByName(s, n) != []
      ensures ByName(InsertedAt(s, p, x), n) != [] && ByName(InsertedAt(s, p, x), n)[0] == ByName(s, n)[0]
    {
      ByNameInserted(s, p, x, n);
      var after := ByName(s[p..], n);
      assert forall i | 0 <= i < |after| :: off < after[i].off;
    }
  }

  /** Tags later than all others come last on the list, and last on a chain they join. */
  lemma {:induction false} AppendedLast(s: seq<Tag>, p: nat, base: seq<Tag>, q: nat, off: nat)
    requires s != [] && SplitsAt(s, p, off) && Selection(s, base) && q <= |base|
    requires q < |base| ==> off < base[q].off
    requires s[|s| - 1].off <= off
    ensures p == |s| && q == |base|
  {
    assert forall i | 0 <= i < |base| :: base[i] in s && base[i].off <= off;
  }

  /** The sibling chain once the old first of the name is displaced. */
  ghost function Displaced(sibs: seq<Tag>, j: nat): seq<Tag> {
    if 0 < j < |sibs| then RemovedAt(sibs, j) else sibs
  }

  lemma {:induction false} DisplacedChain(s: seq<Tag>, sibs: seq<Tag>, j: nat, n: string)
    requires Selection(s, sibs) && Agrees(s, sibs) && j <= |sibs|
    requires j < |sibs| ==> sibs[j].name == n
    ensures Selection(s, Displaced(sibs, j))
    ensures forall m: string | m != n :: At(ByName(Displaced(sibs, j), m), 0) == At(ByName(s, m), 0)
  {
    if 0 < j < |sibs| {
      RemovedDistinct(sibs, j);
      AgreesRemoved(s, sibs, j);
      assert forall i | 0 <= i < |sibs| - 1 :: RemovedAt(sibs, j)[i] == sibs[if i < j then i else i + 1];
    }
  }

  /** Everything a first tag of its name does to the sibling chain. */
  lemma {:induction false} FirstChain(s: seq<Tag>, p: nat, sibs: seq<Tag>, j: nat, q: nat, x: Tag, off: nat)
    requires s != [] && SplitsAt(s, p, off) && x !in s
    requires Selection(s, sibs) && Agrees(s, sibs)
    requires j <= |sibs| && At(sibs, j) == At(ByName(s, x.name), 0)
    requires j < |sibs| ==> off < sibs[j].off
    requires forall i | 0 <= i < j :: sibs[i].name != x.name
    requires q <= |Displaced(sibs, j)|
    requires forall i | 0 <= i < q :: Displaced(sibs, j)[i].off <= off
    requires q < |Displaced(sibs, j)| ==> off < Displaced(sibs, j)[q].off
    ensures var r, b := InsertedAt(s, p, x), InsertedAt(Displaced(sibs, j), q, x);
            && Selection(r, b) && Agrees(r, b)
            && (OnlyFirsts(s, sibs) ==> (OnlyFirsts(r, b) <==> !(off < s[0].off && s[0].name == x.name)))
            && (s[|s| - 1].off <= off ==> ByName(s, x.name) == [] && b == sibs + [x])
  {
    var base := Displaced(sibs, j);
    assert forall i | 0 <= i < |ByName(s, x.name)| :: ByName(s, x.name)[i] in s && ByName(s, x.name)[i].name == x.name;
    DisplacedChain(s, sibs, j, x.name);
    JoinedChain(s, p, base, q, x, off);
    if OnlyFirsts(s, sibs) {
      ExactFirst(s, p, sibs, j, base, q, x, off);
    }
    if s[|s| - 1].off <= off {
      AppendedLast(s, p, base, q, off);
    }
  }

  // -------------------------------------------------------------------------------- removing a tag

  /** Removing a tag removes it from the tags of its name ... */
  lemma {:induction false} NameRemoved(s: seq<Tag>, k: nat, m: nat)
    requires Distinct(s) && k < |s| && m < |ByName(s, s[k].name)| && ByName(s, s[k].name)[m] == s[k]
    ensures ByName(RemovedAt(s, k), s[k].name) == RemovedAt(ByName(s, s[k].name), m)
  {
    var n := s[k].name;
    var same, before, after := ByName(s, n), ByName(s[..k], n), ByName(s[k + 1..], n);
    ByNameRemoved(s, k, n);
    ByNameDistinct(s, n);
    MidRemoved(before, s[k], after, m);
  }

  lemma {:induction false} MidRemoved(a: seq<Tag>, x: Tag, b: seq<Tag>, m: nat)
    requires m < |a + [x] + b| && (a + [x] + b)[m] == x && Distinct(a + [x] + b)
    ensures RemovedAt(a + [x] + b, m) == a + b
  {
    DistinctPairs(a + [x] + b);
    assert (a + [x] + b)[|a|] == x;
  }

  /** ... and leaves all other names alone. */
  lemma {:induction false} OtherNameRemoved(s: seq<Tag>, k: nat, n: string)
    requires k < |s| && n != s[k].name
    ensures ByName(RemovedAt(s, k), n) == ByName(s, n)
  {
    ByNameRemoved(s, k, n);
  }

  /** The sibling chain that should be left when `s[k]` is cut: its entry passes to the next tag
      of its name, or goes. */
  ghost function CutSiblings(s: seq<Tag>, k: nat, sibs: seq<Tag>, j: nat): seq<Tag>
    requires k < |s|
  {
    if j >= |sibs| || sibs[j] != s[k] then sibs
    else if |ByName(s, s[k].name)| > 1 then InsertedAt(RemovedAt(sibs, j), j, ByName(s, s[k].name)[1])
    else RemovedAt(sibs, j)
  }

  lemma {:induction false} EntryOfName(s: seq<Tag>, sibs: seq<Tag>, n: string, j: nat)
    requires Agrees(s, sibs) && OnlyFirsts(s, sibs) && Distinct(sibs)
    requires j < |sibs| && sibs[j].name == n
    ensures sibs[j] == ByName(s, n)[0]
    ensures forall i | 0 <= i < |sibs| && i != j :: sibs[i].name != n
  {
    DistinctPairs(sibs);
  }

  /** The first entry of a name is at `j`. */
  ghost predicate EntryAt(sibs: seq<Tag>, n: string, j: nat) {
    j < |sibs| && sibs[j].name == n && forall i | 0 <= i < j :: sibs[i].name != n
  }

  lemma {:induction false} EntryIsFirst(s: seq<Tag>, sibs: seq<Tag>, n: string, j: nat)
    requires Agrees(s, sibs) && EntryAt(sibs, n, j)
    ensures ByName(s, n) != [] && sibs[j] == ByName(s, n)[0]
  {
    ByNameAt(sibs, n, j);
    assert At(ByName(sibs, n), 0) == At(ByName(s, n), 0);
  }

  /** The tag behind `s[k]` among those of its name is not on the sibling chain, nor is `s[k]` unless it is
      the first of them. */
  ghost predicate Loose(s: seq<Tag>, k: nat, m: nat, sibs: seq<Tag>)
    requires k < |s|
  {
    var same := ByName(s, s[k].name);
    (m + 1 < |same| ==> same[m + 1] !in sibs) && (m > 0 ==> s[k] !in sibs)
  }

  lemma {:induction false} ExactIsLoose(s: seq<Tag>, k: nat, m: nat, sibs: seq<Tag>, j: nat)
    requires Distinct(s) && k < |s| && m < |ByName(s, s[k].name)| && ByName(s, s[k].name)[m] == s[k]
    requires Agrees(s, sibs) && OnlyFirsts(s, sibs) && Distinct(sibs) && EntryAt(sibs, s[k].name, j)
    ensures Loose(s, k, m, sibs)
  {
    EntryOfName(s, sibs, s[k].name, j);
    ByNameDistinct(s, s[k].name);
    DistinctPairs(ByName(s, s[k].name));
  }

  lemma {:induction false} CutAgrees(s: seq<Tag>, k: nat, m: nat, sibs: seq<Tag>, j: nat)
    requires Distinct(s) && k < |s| && m < |ByName(s, s[k].name)| && ByName(s, s[k].name)[m] == s[k]
    requires Selection(s, sibs) && Agrees(s, sibs) && EntryAt(sibs, s[k].name, j)
    ensures sibs[j] == s[k] <==> m == 0
    ensures Agrees(RemovedAt(s, k), CutSiblings(s, k, sibs, j))
  {
    var x, same := s[k], ByName(s, s[k].name);
    var rest, r := RemovedAt(s, k), CutSiblings(s, k, sibs, j);
    EntryIsFirst(s, sibs, x.name, j);
    ByNameDistinct(s, x.name);
    DistinctPairs(same);
    NameRemoved(s, k, m);
    forall n: string
      ensures At(ByName(r, n), 0) == At(ByName(rest, n), 0)
    {
      assert At(ByName(sibs, n), 0) == At(ByName(s, n), 0);
      if n != x.name {
        OtherNameRemoved(s, k, n);
        if sibs[j] == x {
          CutEntryOther(s, k, sibs, j, n);
        }
      } else if sibs[j] == x {
        CutEntryOwn(s, k, sibs, j);
      }
    }
  }

  lemma {:induction false} CutEntryOther(s: seq<Tag>, k: nat, sibs: seq<Tag>, j: nat, n: string)
    requires k < |s| && j < |sibs| && sibs[j] == s[k] && n != s[k].name
    ensures ByName(CutSiblings(s, k, sibs, j), n) == ByName(sibs, n)
  {
    hide ByName, RemovedAt, InsertedAt;
    ByNameRemoved(sibs, j, n);
    var same, rest := ByName(s, s[k].name), RemovedAt(sibs, j);
    assert ByName(rest, n) == ByName(sibs, n);
    if |same| > 1 {
      assert same[1].name == s[k].name;
      ByNameInserted(rest, j, same[1], n);
    }
  }

  lemma {:induction false} CutEntryOwn(s: seq<Tag>, k: nat, sibs: seq<Tag>, j: nat)
    requires k < |s| && EntryAt(sibs, s[k].name, j) && sibs[j] == s[k] && Selection(s, sibs)
    requires ByName(s, s[k].name) != [] && ByName(s, s[k].name)[0] == s[k]
    ensures At(ByName(CutSiblings(s, k, sibs, j), s[k].name), 0) == At(ByName(s, s[k].name), 1)
  {
    hide ByName, Distinct, RemovedAt, InsertedAt;
    var n := s[k].name;
    var same, r := ByName(s, n), CutSiblings(s, k, sibs, j);
    if |same| > 1 {
      assert same[1].name == n && r[j] == same[1];
      assert forall i | 0 <= i < j :: r[i] == sibs[i];
      ByNameAt(r, n, j);
    } else {
      NoneLeft(s, k, sibs, j);
    }
  }

  lemma {:induction false} NoneLeft(s: seq<Tag>, k: nat, sibs: seq<Tag>, j: nat)
    requires k < |s| && j < |sibs| && sibs[j] == s[k] && Selection(s, sibs)
    requires |ByName(s, s[k].name)| == 1 && ByName(s, s[k].name)[0] == s[k]
    ensures ByName(RemovedAt(sibs, j), s[k].name) == []
  {
    hide ByName, Distinct, RemovedAt;
    var r := RemovedAt(sibs, j);
    DistinctPairs(sibs);
    forall i | 0 <= i < |r|
      ensures r[i].name != s[k].name
    {
      var t := sibs[if i < j then i else i + 1];
      assert r[i] == t && t in s && t != s[k];
      OnlyOne(s, s[k], t);
    }
    ByNameNone(r, s[k].name);
  }

  /** A name that only one tag has. */
  lemma {:induction false} OnlyOne(s: seq<Tag>, x: Tag, t: Tag)
    requires |ByName(s, x.name)| == 1 && ByName(s, x.name)[0] == x && t in s && t != x
    ensures t.name != x.name
  {
    hide ByName;
    if t.name == x.name {
      ByNameHas(s, t);
    }
  }

  lemma {:induction false} NamesKeptRemoved(s: seq<Tag>, k: nat, m: nat)
    requires Distinct(s) && k < |s| && m < |ByName(s, s[k].name)| && ByName(s, s[k].name)[m] == s[k]
    requires forall n: string | n != s[k].name :: NextChainOf(s, n)
    requires NextChain(RemovedAt(ByName(s, s[k].name), m))
    ensures NextChains(RemovedAt(s, k))
  {
    forall n: string
      ensures NextChainOf(RemovedAt(s, k), n)
    {
      if n != s[k].name {
        OtherNameRemoved(s, k, n);
        assert NextChainOf(s, n);
      } else {
        NameRemoved(s, k, m);
      }
    }
  }

  lemma {:induction false} CutOnlyFirsts(s: seq<Tag>, k: nat, m: nat, sibs: seq<Tag>, j: nat)
    requires Distinct(s) && k < |s| && m < |ByName(s, s[k].name)| && ByName(s, s[k].name)[m] == s[k]
    requires Distinct(sibs) && Agrees(s, sibs) && OnlyFirsts(s, sibs)
    requires j < |sibs| && sibs[j].name == s[k].name
    ensures OnlyFirsts(RemovedAt(s, k), CutSiblings(s, k, sibs, j))
  {
    hide ByName, Agrees, RemovedAt;
    var x, same := s[k], ByName(s, s[k].name);
    var rest, r := RemovedAt(s, k), CutSiblings(s, k, sibs, j);
    EntryOfName(s, sibs, x.name, j);
    ByNameDistinct(s, x.name);
    DistinctPairs(same);
    NameRemoved(s, k, m);
    forall i | 0 <= i < |r|
      ensures ByName(rest, r[i].name) != [] && ByName(rest, r[i].name)[0] == r[i]
    {
      if r[i].name != x.name {
        OtherNameRemoved(s, k, r[i].name);
      }
    }
  }

  lemma {:induction false} CutSelection(s: seq<Tag>, k: nat, m: nat, sibs: seq<Tag>, j: nat)
    requires Distinct(s) && k < |s| && m < |ByName(s, s[k].name)| && ByName(s, s[k].name)[m] == s[k]
    requires Selection(s, sibs) && Agrees(s, sibs) && EntryAt(sibs, s[k].name, j) && Loose(s, k, m, sibs)
    ensures Distinct(CutSiblings(s, k, sibs, j))
    ensures forall i | 0 <= i < |CutSiblings(s, k, sibs, j)| :: CutSiblings(s, k, sibs, j)[i] in RemovedAt(s, k)
  {
    var x, same := s[k], ByName(s, s[k].name);
    var rest, r := RemovedAt(s, k), CutSiblings(s, k, sibs, j);
    EntryIsFirst(s, sibs, x.name, j);
    ByNameDistinct(s, x.name);
    DistinctPairs(same);
    RemovedDistinct(sibs, j);
    if sibs[j] == x && |same| > 1 {
      assert same[1].name == x.name;
      assert same[1] !in RemovedAt(sibs, j);
      InsertedDistinct(RemovedAt(sibs, j), j, same[1]);
    }
    forall i | 0 <= i < |r|
      ensures r[i] in rest
    {
      StillThere(s, k, r[i]);
    }
  }

  lemma {:induction false} CutLaterChain(s: seq<Tag>, k: nat, m: nat, sibs: seq<Tag>, j: nat)
    requires Distinct(s) && 0 < k < |s| && m < |ByName(s, s[k].name)| && ByName(s, s[k].name)[m] == s[k]
    requires Selection(s, sibs) && Agrees(s, sibs) && EntryAt(sibs, s[k].name, j) && Loose(s, k, m, sibs)
    ensures var rest, r := RemovedAt(s, k), CutSiblings(s, k, sibs, j);
            Selection(rest, r) && Agrees(rest, r) && (OnlyFirsts(s, sibs) ==> OnlyFirsts(rest, r))
  {
    CutAgrees(s, k, m, sibs, j);
    if OnlyFirsts(s, sibs) {
      CutOnlyFirsts(s, k, m, sibs, j);
    }
    CutSelection(s, k, m, sibs, j);
    DistinctPairs(s);
    assert sibs[j] == s[k] ==> j > 0;
  }

  /** What decides whether cutting the first child keeps lookup by name: the new first child has to
      be the tag that takes over the old one's place on the sibling chain. */
  ghost predicate HeadPassesOn(s: seq<Tag>, sibs: seq<Tag>)
    requires s != []
  {
    At(s, 1) == if |ByName(s, s[0].name)| > 1 then ByName(s, s[0].name)[1] else At(sibs, 1)
  }

  lemma {:induction false} CutHeadKeeps(s: seq<Tag>, sibs: seq<Tag>)
    requires s != [] && Distinct(s) && HeadPassesOn(s, sibs)
    requires Selection(s, sibs) && Agrees(s, sibs) && Loose(s, 0, 0, sibs)
    ensures var rest, r := RemovedAt(s, 0), CutSiblings(s, 0, sibs, 0);
            Selection(rest, r) && Agrees(rest, r) && (OnlyFirsts(s, sibs) ==> OnlyFirsts(rest, r))
  {
    assert sibs[0] == s[0];
    assert ByName(s, s[0].name)[0] == s[0];
    CutAgrees(s, 0, 0, sibs, 0);
    if OnlyFirsts(s, sibs) {
      CutOnlyFirsts(s, 0, 0, sibs, 0);
    }
    CutSelection(s, 0, 0, sibs, 0);
  }

  lemma {:induction false} CutHeadLoses(s: seq<Tag>, sibs: seq<Tag>) returns (i: nat)
    requires s != [] && Distinct(s) && !HeadPassesOn(s, sibs)
    requires Selection(s, sibs) && Agrees(s, sibs) && Loose(s, 0, 0, sibs)
    ensures 0 < i < |sibs| && |s| > 1 && sibs[i] == s[1]
    ensures Selection(RemovedAt(s, 0), sibs[i..]) && !Agrees(RemovedAt(s, 0), sibs[i..])
  {
    hide ByName, Agrees, Loose, HeadPassesOn;
    if |s| == 1 {
      OnlyTag(s, sibs);
    }
    i := SecondEntry(s, sibs);
    DistinctPairs(sibs);
    DistinctPairs(sibs[i..]);
    DistinctPairs(s);
    forall k | 0 <= k < |sibs[i..]|
      ensures sibs[i..][k] in RemovedAt(s, 0)
    {
      StillThere(s, 0, sibs[i + k]);
    }
    LostName(s, sibs, i);
  }

  lemma {:induction false} OnlyTag(s: seq<Tag>, sibs: seq<Tag>)
    requires |s| == 1 && Selection(s, sibs)
    ensures HeadPassesOn(s, sibs)
  {
    DistinctPairs(sibs);
    assert s == [s[0]];
    assert forall k | 0 <= k < |sibs| :: sibs[k] in s && sibs[k] == s[0];
  }

  lemma {:induction false} SecondOfName(s: seq<Tag>)
    requires |s| > 1 && s[1].name == s[0].name
    ensures |ByName(s, s[0].name)| > 1 && ByName(s, s[0].name)[1] == s[1]
  {
    assert s[1..][0] == s[1];
    assert ByName(s, s[0].name) == [s[0]] + ByName(s[1..], s[0].name);
    assert ByName(s[1..], s[0].name) == [s[1]] + ByName(s[1..][1..], s[0].name);
  }

  /** When the second child starts a name of its own, it is on the sibling chain. */
  lemma {:induction false} SecondEntry(s: seq<Tag>, sibs: seq<Tag>) returns (i: nat)
    requires |s| > 1 && Distinct(s) && !HeadPassesOn(s, sibs)
    requires Selection(s, sibs) && Agrees(s, sibs)
    ensures 0 < i < |sibs| && sibs[i] == s[1] && s[1].name != s[0].name
  {
    var n := s[1].name;
    if n == s[0].name {
      SecondOfName(s);
    }
    assert s[1..][0] == s[1];
    assert ByName(s, n) == ByName(s[1..], n);
    assert ByName(s[1..], n)[0] == s[1];
    assert At(ByName(sibs, n), 0) == At(ByName(s, n), 0);
    assert ByName(sibs, n)[0] in sibs;
    i :| 0 <= i < |sibs| && sibs[i] == ByName(sibs, n)[0];
  }

  /** The names between the head and the second child's entry are lost, or the head's own name is. */
  lemma {:induction false} LostName(s: seq<Tag>, sibs: seq<Tag>, i: nat)
    requires |s| > 1 && Distinct(s) && !HeadPassesOn(s, sibs)
    requires Selection(s, sibs) && Agrees(s, sibs) && Loose(s, 0, 0, sibs)
    requires 0 < i < |sibs| && sibs[i] == s[1]
    ensures !Agrees(RemovedAt(s, 0), sibs[i..])
  {
    var same, late := ByName(s, s[0].name), sibs[i..];
    assert same[0] == s[0];
    NameRemoved(s, 0, 0);
    if |same| > 1 {
      assert same[1] !in sibs;
      assert At(ByName(RemovedAt(s, 0), s[0].name), 0) == same[1];
      assert At(ByName(late, s[0].name), 0) != same[1];
    } else {
      assert i > 1;
      var n := sibs[1].name;
      DistinctPairs(sibs);
      OnlyOne(s, s[0], sibs[1]);
      EntryIsFirst(s, sibs, n, 1);
      OtherNameRemoved(s, 0, n);
      assert sibs[1] !in late;
      assert At(ByName(late, n), 0) != At(ByName(RemovedAt(s, 0), n), 0);
    }
  }

  lemma {:induction false} StillThere(s: seq<Tag>, k: nat, t: Tag)
    requires k < |s| && t in s && t != s[k]
    ensures t in RemovedAt(s, k)
  {
    var i :| 0 <= i < |s| && s[i] == t;
    assert RemovedAt(s, k)[if i < k then i else i - 1] == t;
  }

  lemma {:induction false} ByNameNone(s: seq<Tag>, n: string)
    requires forall i | 0 <= i < |s| :: s[i].name != n
    ensures ByName(s, n) == []
  {
    ByNameAt(s, n, |s|);
  }

  // --------------------------------------------------------------------------------------- tags

  datatype Looked = Stopped(t: Tag?) | Walking

  class Tag {
    const name: string
    var off: nat
    var next: Tag?
    var sibling: Tag?
    var ordered: Tag?
    var child: Tag?
    var parent: Tag?
    ghost var kids: seq<Tag>
    ghost var sibs: seq<Tag>

    constructor (name: string)
      ensures this.name == name && kids == [] && sibs == []
      ensures next == null && sibling == null && ordered == null && parent == null
      ensures Walkable() && Complete() && Exact()
    {
      this.name := name;
      off := 0;
      next, sibling, ordered, child, parent := null, null, null, null, null;
      kids, sibs := [], [];
    }

    /** `ordered` threads `kids`, which is sorted by offset and free of duplicates. */
    ghost predicate Threaded()
      reads this`child, this`kids, kids`off, kids`parent, kids`ordered
    {
      && this !in kids
      && Distinct(kids)
      && SortedByOffset(kids)
      && child == At(kids, 0)
      && ChildrenOf(kids, this)
      && OrderedChain(kids)
    }

    /** `next` threads the tags of each name, and `sibling` threads `sibs`, some of the children
        beginning with the first. */
    ghost predicate Indexed()
      reads this`kids, this`sibs, kids`next, kids`sibling
    {
      && NextChains(kids)
      && Selection(kids, sibs)
      && SiblingChain(sibs)
    }

    /** Every chain is acyclic and null-terminated. */
    ghost predicate Walkable()
      reads this, kids
    {
      Threaded() && Indexed()
    }

    /** Lookup by name along `sibling` agrees with filtering the children. */
    ghost predicate Complete()
      reads this`kids, this`sibs
    {
      Agrees(kids, sibs)
    }

    /** The sibling chain visits first children only. */
    ghost predicate Exact()
      reads this`kids, this`sibs
    {
      OnlyFirsts(kids, sibs)
    }

    /** The last tag of the `ordered` chain at or before `off`. */
    static method WalkOrdered(head: Tag, off: nat, ghost s: seq<Tag>) returns (cur: Tag, ghost p: nat)
      requires s != [] && head == s[0] && head.off <= off && OrderedChain(s)
      ensures 0 < p <= |s| && cur == s[p - 1]
      ensures forall i | 0 <= i < p :: s[i].off <= off
      ensures p < |s| ==> off < s[p].off
    {
      cur, p := head, 1;
      while cur.ordered != null && cur.ordered.off <= off
        invariant 1 <= p <= |s| && cur == s[p - 1]
        invariant forall i | 0 <= i < p :: s[i].off <= off
        decreases |s| - p
      {
        cur := cur.ordered;
        p := p + 1;
      }
    }

    /** The last tag of a `next` chain at or before `off`. */
    static method WalkNext(first: Tag, off: nat, ghost same: seq<Tag>) returns (cur: Tag, ghost q: nat)
      requires same != [] && first == same[0] && first.off <= off && NextChain(same)
      ensures 0 < q <= |same| && cur == same[q - 1]
      ensures forall i | 0 <= i < q :: same[i].off <= off
      ensures q < |same| ==> off < same[q].off
    {
      cur, q := first, 1;
      while cur.next != null && cur.next.off <= off
        invariant 1 <= q <= |same| && cur == same[q - 1]
        invariant forall i | 0 <= i < q :: same[i].off <= off
        decreases |same| - q
      {
        cur := cur.next;
        q := q + 1;
      }
    }

    /** The first tag of the sibling chain past `off`, and the entry before it. */
    static method WalkSibling(head: Tag, off: nat, ghost sibs: seq<Tag>) returns (cur: Tag?, prev: Tag?, ghost q: nat)
      requires sibs != [] && head == sibs[0] && SiblingChain(sibs)
      ensures q <= |sibs| && cur == At(sibs, q) && prev == if q == 0 then null else sibs[q - 1]
      ensures forall i | 0 <= i < q :: sibs[i].off <= off
      ensures q < |sibs| ==> off < sibs[q].off
    {
      cur, prev, q := head, null, 0;
      while cur != null && cur.off <= off
        invariant q <= |sibs| && cur == At(sibs, q)
        invariant prev == if q == 0 then null else sibs[q - 1]
        invariant forall i | 0 <= i < q :: sibs[i].off <= off
        decreases |sibs| - q
      {
        prev := cur;
        cur := cur.sibling;
        q := q + 1;
      }
    }

    /** Finds the first tag of `name` on the sibling chain and the entry before it. */
    static method FindType(head: Tag, name: string, ghost sibs: seq<Tag>) returns (cur: Tag?, prev: Tag?, ghost j: nat)
      requires sibs != [] && head == sibs[0] && SiblingChain(sibs)
      ensures j <= |sibs| && cur == At(sibs, j) && prev == if j == 0 then null else sibs[j - 1]
      ensures forall i | 0 <= i < j :: sibs[i].name != name
      ensures cur != null ==> cur.name == name
    {
      cur, prev, j := head, null, 0;
      while cur != null && cur.name != name
        invariant j <= |sibs| && cur == At(sibs, j)
        invariant prev == if j == 0 then null else sibs[j - 1]
        invariant forall i | 0 <= i < j :: sibs[i].name != name
        decreases |sibs| - j
      {
        prev := cur;
        cur := cur.sibling;
        j := j + 1;
      }
    }

    /** Puts `xml` behind `cur` on the `ordered` chain. */
    static method LinkOrdered(cur: Tag, xml: Tag, ghost s: seq<Tag>, ghost p: nat)
      requires 0 < p <= |s| && cur == s[p - 1]
      requires Distinct(s) && OrderedChain(s) && xml !in s
      modifies xml`ordered, cur`ordered
      ensures OrderedChain(InsertedAt(s, p, xml))
    {
      DistinctPairs(s);
      xml.ordered := cur.ordered;
      cur.ordered := xml;
      forall i | 0 <= i <= |s|
        ensures InsertedAt(s, p, xml)[i].ordered == At(InsertedAt(s, p, xml), i + 1)
      {
        if i < p {
          assert InsertedAt(s, p, xml)[i] == s[i];
        }
      }
    }

    /** Puts `xml` behind `cur` on the `next` chain of their name. */
    static method LinkNext(cur: Tag, xml: Tag, ghost same: seq<Tag>, ghost q: nat)
      requires 0 < q <= |same| && cur == same[q - 1]
      requires Distinct(same) && NextChain(same) && xml !in same
      modifies xml`next, cur`next
      ensures NextChain(InsertedAt(same, q, xml))
    {
      DistinctPairs(same);
      xml.next := cur.next;
      cur.next := xml;
      forall i | 0 <= i <= |same|
        ensures InsertedAt(same, q, xml)[i].next == At(InsertedAt(same, q, xml), i + 1)
      {
        if i < q {
          assert InsertedAt(same, q, xml)[i] == same[i];
        }
      }
    }

    static method LinkFirstNext(second: Tag?, xml: Tag, ghost same: seq<Tag>)
      requires NextChain(same) && xml !in same && second == At(same, 0)
      modifies xml`next
      ensures NextChain(InsertedAt(same, 0, xml))
    {
      xml.next := second;
      forall i | 0 <= i <= |same|
        ensures InsertedAt(same, 0, xml)[i].next == At(InsertedAt(same, 0, xml), i + 1)
      {
        if i > 0 {
          assert InsertedAt(same, 0, xml)[i] == same[i - 1];
        }
      }
    }

    /** Puts `xml` between `prev` and `cur` on the sibling chain. */
    static method LinkSibling(cur: Tag?, prev: Tag?, xml: Tag, ghost sibs: seq<Tag>, ghost q: nat)
      requires q <= |sibs| && cur == At(sibs, q) && prev == if q == 0 then null else sibs[q - 1]
      requires Distinct(sibs) && SiblingChain(sibs) && xml !in sibs
      modifies xml`sibling, (if prev == null then {} else {prev})`sibling
      ensures SiblingChain(InsertedAt(sibs, q, xml))
    {
      DistinctPairs(sibs);
      xml.sibling := cur;
      if prev != null {
        prev.sibling := xml;
      }
      forall i | 0 <= i <= |sibs|
        ensures InsertedAt(sibs, q, xml)[i].sibling == At(InsertedAt(sibs, q, xml), i + 1)
      {
        if i < q {
          assert InsertedAt(sibs, q, xml)[i] == sibs[i];
        }
      }
    }

    /** A tag that is not first of its name joins the `next` chain only. */
    static method LinkLater(first: Tag, xml: Tag, off: nat, ghost p: nat, ghost s: seq<Tag>)
      requires Distinct(s) && NextChains(s) && SplitsAt(s, p, off) && xml !in s
      requires first == At(ByName(s, xml.name), 0) && first.off <= off
      modifies xml`next, s`next
      ensures NextChains(InsertedAt(s, p, xml))
    {
      ghost var same := ByName(s, xml.name);
      ByNameDistinct(s, xml.name);
      assert NextChainOf(s, xml.name);
      assert NextChain(same);
      var cur, q := WalkNext(first, off, same);
      assert cur in same;
      LinkNext(cur, xml, same, q);
      forall n: string | n != xml.name
        ensures NextChainOf(s, n)
      {
        assert old(NextChainOf(s, n));
        forall i: nat | i < |ByName(s, n)|
          ensures ByName(s, n)[i].next == At(ByName(s, n), i + 1)
        {
          assert ByName(s, n)[i] in ByName(s, n);
        }
      }
      PlaceByName(s, p, xml, off, q);
      NamesKept(s, p, xml);
    }

    /** A tag that comes first of its name heads the `next` chain ... */
    static method LinkFront(second: Tag?, xml: Tag, off: nat, ghost p: nat, ghost s: seq<Tag>)
      requires NextChains(s) && SplitsAt(s, p, off) && xml !in s
      requires second == At(ByName(s, xml.name), 0) && (second != null ==> off < second.off)
      modifies xml`next
      ensures NextChains(InsertedAt(s, p, xml))
    {
      ghost var same := ByName(s, xml.name);
      assert NextChainOf(s, xml.name);
      LinkFirstNext(second, xml, same);
      forall n: string | n != xml.name
        ensures NextChainOf(s, n)
      {
        assert old(NextChainOf(s, n));
      }
      PlaceByName(s, p, xml, off, 0);
      NamesKept(s, p, xml);
    }

    /** Takes the displaced first tag of a name off the sibling chain. */
    static method Displace(prev: Tag, cur: Tag, ghost s: seq<Tag>, ghost sibs: seq<Tag>, ghost j: nat)
      requires 0 < j < |sibs| && cur == sibs[j] && prev == sibs[j - 1]
      requires Distinct(sibs) && SiblingChain(sibs)
      modifies prev`sibling
      ensures SiblingChain(RemovedAt(sibs, j))
    {
      DistinctPairs(sibs);
      prev.sibling := cur.sibling;
      ghost var r := RemovedAt(sibs, j);
      forall i | 0 <= i < |r|
        ensures r[i].sibling == At(r, i + 1)
      {
        assert r[i] == if i < j then sibs[i] else sibs[i + 1];
      }
    }

    /** Takes the first tag of a name, if there is one and it is not the first of all, off the chain. */
    static method TakeOut(cur: Tag?, prev: Tag?, ghost s: seq<Tag>, ghost sibs: seq<Tag>, ghost j: nat)
      requires j <= |sibs| && cur == At(sibs, j) && prev == if j == 0 then null else sibs[j - 1]
      requires Selection(s, sibs) && SiblingChain(sibs)
      modifies sibs`sibling
      ensures SiblingChain(Displaced(sibs, j))
    {
      hide SiblingChain, Distinct;
      if prev != null && cur != null {
        assert prev in sibs;
        Displace(prev, cur, s, sibs, j);
      }
    }

    /** Puts the first tag of a name on the sibling chain. */
    static method Join(head: Tag, xml: Tag, off: nat, ghost sibs: seq<Tag>) returns (ghost q: nat)
      requires sibs != [] && head == sibs[0]
      requires Distinct(sibs) && SiblingChain(sibs) && xml !in sibs
      modifies xml`sibling, sibs`sibling
      ensures q <= |sibs| && SiblingChain(InsertedAt(sibs, q, xml))
      ensures forall i | 0 <= i < q :: sibs[i].off <= off
      ensures q < |sibs| ==> off < sibs[q].off
    {
      var cur, prev;
      cur, prev, q := WalkSibling(head, off, sibs);
      assert q > 0 ==> prev in sibs;
      LinkSibling(cur, prev, xml, sibs, q);
    }

    /** Links `xml` into its `next` chain, and into the sibling chain when it comes first of its
        name; the displaced first tag leaves that chain unless it heads it. */
    static method LinkByName(head: Tag, xml: Tag, off: nat, ghost p: nat, ghost s: seq<Tag>, ghost sibs: seq<Tag>)
      returns (ghost r: seq<Tag>)
      requires s != [] && head == s[0]
      requires Distinct(s) && NextChains(s) && SplitsAt(s, p, off) && xml !in s
      requires Selection(s, sibs) && SiblingChain(sibs) && Agrees(s, sibs)
      modifies xml`next, xml`sibling, s`next, s`sibling
      ensures NextChains(InsertedAt(s, p, xml))
      ensures SiblingChain(r) && Selection(InsertedAt(s, p, xml), r)
      ensures Agrees(InsertedAt(s, p, xml), r)
      ensures OnlyFirsts(s, sibs)
          ==> (OnlyFirsts(InsertedAt(s, p, xml), r) <==> !(off < head.off && head.name == xml.name))
      ensures s[|s| - 1].off <= off
          ==> r == if ByName(s, xml.name) == [] then sibs + [xml] else sibs
    {
      var cur, prev, j := FindType(head, xml.name, sibs);
      ByNameAt(sibs, xml.name, j);
      assert cur == At(ByName(s, xml.name), 0);
      if cur != null && cur.off <= off {
        LinkLater(cur, xml, off, p, s);
        AgreesLater(s, p, sibs, xml, off);
        SelectionLater(s, p, sibs, xml);
        r := sibs;
        LaterFirsts(s, p, sibs, xml, off);
      } else {
        r := LinkFirst(cur, prev, j, head, xml, off, p, s, sibs);
      }
    }

    static method LinkFirst(cur: Tag?, prev: Tag?, ghost j: nat, head: Tag, xml: Tag, off: nat, ghost p: nat,
        ghost s: seq<Tag>, ghost sibs: seq<Tag>)
      returns (ghost r: seq<Tag>)
      requires s != [] && head == s[0]
      requires Distinct(s) && NextChains(s) && SplitsAt(s, p, off) && xml !in s
      requires Selection(s, sibs) && SiblingChain(sibs) && Agrees(s, sibs)
      requires j <= |sibs| && cur == At(sibs, j) && prev == if j == 0 then null else sibs[j - 1]
      requires cur == At(ByName(s, xml.name), 0) && (cur != null ==> off < cur.off)
      requires forall i | 0 <= i < j :: sibs[i].name != xml.name
      modifies xml`next, xml`sibling, s`sibling
      ensures NextChains(InsertedAt(s, p, xml))
      ensures SiblingChain(r) && Selection(InsertedAt(s, p, xml), r)
      ensures Agrees(InsertedAt(s, p, xml), r)
      ensures OnlyFirsts(s, sibs)
          ==> (OnlyFirsts(InsertedAt(s, p, xml), r) <==> !(off < head.off && head.name == xml.name))
      ensures s[|s| - 1].off <= off
          ==> ByName(s, xml.name) == [] && r == sibs + [xml]
    {
      hide ByName, Agrees, OnlyFirsts, NextChains, SplitsAt, InsertedAt, Distinct, SiblingChain;
      TakeOut(cur, prev, s, sibs, j);
      ghost var base := Displaced(sibs, j);
      DisplacedChain(s, sibs, j, xml.name);
      LinkFront(cur, xml, off, p, s);
      ghost var q := Join(head, xml, off, base);
      FirstChain(s, p, sibs, j, q, xml, off);
      r := InsertedAt(base, q, xml);
    }

    /** Inserts `xml` among the children at offset `off`, behind the children already there.
        Lookup by name survives every insertion.  The sibling chain still visits first children
        only unless the new tag goes in front of a first child of its own name. */
    method Insert(xml: Tag, off: nat) returns (ghost p: nat)
      requires Walkable() && Complete()
      requires xml != this && xml !in kids
      modifies this`child, this`kids, this`sibs, kids`ordered, kids`next, kids`sibling
      modifies xml`ordered, xml`next, xml`sibling, xml`off, xml`parent
      ensures Walkable() && Complete()
      ensures xml.off == off && SplitsAt(old(kids), p, off)
      ensures kids == InsertedAt(old(kids), p, xml)
      ensures old(Exact()) ==> (Exact() <==> !old(child != null && off < child.off && child.name == xml.name))
      ensures old(kids == [] || kids[|kids| - 1].off <= off)
          ==> sibs == if ByName(old(kids), xml.name) == [] then old(sibs) + [xml] else old(sibs)
    {
      ghost var front := child != null && off < child.off && child.name == xml.name;
      ghost var last := kids == [] || kids[|kids| - 1].off <= off;
      Adopt(xml, off);
      var head := child;
      if head != null {
        p := InsertAmong(head, xml, off, front, last);
      } else {
        child := xml;
        p := 0;
        InsertOnly(xml);
      }
    }

    /** Resets the links of a tag about to be inserted. */
    method Adopt(xml: Tag, off: nat)
      requires Threaded() && Indexed() && xml !in kids
      modifies xml`ordered, xml`next, xml`sibling, xml`off, xml`parent
      ensures Threaded() && Indexed()
      ensures xml.next == null && xml.sibling == null && xml.ordered == null
      ensures xml.off == off && xml.parent == this
    {
      hide OrderedChain, SortedByOffset, NextChains, Distinct;
      xml.next, xml.sibling, xml.ordered := null, null, null;
      xml.off := off;
      xml.parent := this;
      assert NextChains(kids) by { assert old(NextChains(kids)); }
      assert OrderedChain(kids) by { assert old(OrderedChain(kids)); }
      assert SortedByOffset(kids) by { assert old(SortedByOffset(kids)); }
      assert forall i | 0 <= i < |sibs| :: sibs[i] != xml;
    }

    ghost method InsertOnly(xml: Tag)
      requires kids == [] && sibs == [] && xml != this && child == xml
      requires xml.parent == this && xml.next == null && xml.sibling == null && xml.ordered == null
      modifies this`kids, this`sibs
      ensures Walkable() && Complete() && Exact()
      ensures kids == [xml] && sibs == [xml]
    {
      kids, sibs := [xml], [xml];
      forall n: string
        ensures NextChainOf(kids, n)
      {
        assert ByName(kids, n) == if xml.name == n then [xml] else [];
      }
    }

    method InsertAmong(head: Tag, xml: Tag, off: nat, ghost front: bool, ghost last: bool) returns (ghost p: nat)
      requires kids != [] && Threaded() && Indexed() && Complete() && head == child
      requires xml != this && xml !in kids && xml.off == off && xml.parent == this
      requires front == (off < head.off && head.name == xml.name)
      requires last == (kids[|kids| - 1].off <= off)
      modifies this`child, this`kids, this`sibs, kids`ordered, kids`next, kids`sibling
      modifies xml`ordered, xml`next, xml`sibling
      ensures Threaded() && Indexed() && Complete()
      ensures SplitsAt(old(kids), p, off)
      ensures kids == InsertedAt(old(kids), p, xml)
      ensures old(Exact()) ==> (Exact() <==> !front)
      ensures last ==> sibs == if ByName(old(kids), xml.name) == [] then old(sibs) + [xml] else old(sibs)
    {
      hide NextChains, SiblingChain, OrderedChain, ChildrenOf, SortedByOffset, Distinct, Selection, Agrees, OnlyFirsts,
          SplitsAt, ByName;
      ghost var s := kids;
      p := Thread(head, xml, off);
      assert NextChains(s) by { assert old(NextChains(s)); }
      assert SiblingChain(sibs) by { assert old(SiblingChain(sibs)); }
      label Placed:
      ghost var r := LinkByName(head, xml, off, p, s, sibs);
      assert Threaded() by { assert old@Placed(Threaded()); }
      assert SplitsAt(s, p, off) by { assert old@Placed(SplitsAt(s, p, off)); }
      sibs := r;
    }

    method Thread(head: Tag, xml: Tag, off: nat) returns (ghost p: nat)
      requires kids != [] && Threaded() && head == child
      requires xml != this && xml !in kids && xml.off == off && xml.parent == this
      modifies this`child, this`kids, kids`ordered, xml`ordered
      ensures Threaded()
      ensures SplitsAt(old(kids), p, off)
      ensures kids == InsertedAt(old(kids), p, xml)
    {
      p := Place(head, xml, off);
      Enlist(xml, p, off);
    }

    ghost method Enlist(xml: Tag, p: nat, off: nat)
      requires this !in kids && Distinct(kids) && SortedByOffset(kids) && ChildrenOf(kids, this)
      requires xml != this && xml !in kids && xml.off == off && xml.parent == this
      requires SplitsAt(kids, p, off)
      requires OrderedChain(InsertedAt(kids, p, xml)) && child == InsertedAt(kids, p, xml)[0]
      modifies this`kids
      ensures Threaded()
      ensures kids == InsertedAt(old(kids), p, xml)
    {
      InsertedShape(kids, p, xml, off);
      ghost var s := kids;
      kids := InsertedAt(s, p, xml);
      assert OrderedChain(kids) by { assert old(OrderedChain(InsertedAt(s, p, xml))); }
      assert ChildrenOf(kids, this) by { assert old(ChildrenOf(s, this)); }
    }

    method Place(head: Tag, xml: Tag, off: nat) returns (ghost p: nat)
      requires kids != [] && head == kids[0] == child
      requires Distinct(kids) && SortedByOffset(kids) && OrderedChain(kids) && xml !in kids
      modifies this`child, xml`ordered, kids`ordered
      ensures SplitsAt(kids, p, off)
      ensures OrderedChain(InsertedAt(kids, p, xml))
      ensures child == InsertedAt(kids, p, xml)[0]
    {
      if head.off <= off {
        var cur;
        cur, p := WalkOrdered(head, off, kids);
        LinkOrdered(cur, xml, kids, p);
      } else {
        xml.ordered := head;
        child := xml;
        p := 0;
        ghost var r := InsertedAt(kids, 0, xml);
        forall i | 0 <= i < |r|
          ensures r[i].ordered == At(r, i + 1)
        {
          assert i > 0 ==> r[i] == kids[i - 1];
        }
      }
    }

    /** The first child tag called `name`, or null. */
    method Child(name: string) returns (r: Tag?)
      requires Walkable()
      ensures r == At(ByName(sibs, name), 0)
      ensures Complete() ==> r == At(ByName(kids, name), 0)
    {
      r := child;
      ghost var j := 0;
      while r != null && r.name != name
        invariant j <= |sibs| && r == At(sibs, j)
        invariant forall i | 0 <= i < j :: sibs[i].name != name
        decreases |sibs| - j
      {
        r := r.sibling;
        j := j + 1;
      }
      ByNameAt(sibs, name, j);
    }

    /** The tag `idx` places behind `xml` on the `next` chain `same`, or null; a negative index counts
        down until the chain ends. */
    static method Idx(xml: Tag?, idx: int, ghost same: seq<Tag>, ghost at: nat) returns (r: Tag?)
      requires NextChain(same) && xml == At(same, at)
      ensures r == if idx < 0 then null else At(same, at + idx)
    {
      r := xml;
      var left := idx;
      while r != null && left != 0
        invariant left <= idx && (0 <= idx ==> 0 <= left) && r == At(same, at + idx - left)
        decreases |same| - (at + idx - left)
      {
        r := r.next;
        left := left - 1;
      }
      assert r == null ==> |same| <= at + idx - left;
    }

    /** The `idx`-th child called `name` in document order, or null. */
    method Get(name: string, idx: int) returns (r: Tag?)
      requires Walkable() && Complete()
      ensures r == if idx < 0 then null else At(ByName(kids, name), idx)
    {
      r := Child(name);
      assert NextChainOf(kids, name);
      r := Idx(r, idx, ByName(kids, name), 0);
    }

    // ------------------------------------------------------------------------------ cutting

    /** Where a child stands among the tags of its name, and the chain entry of that name. */
    lemma {:induction false} Locate(k: nat) returns (m: nat, j: nat)
      requires Indexed() && Complete() && k < |kids|
      ensures m < |ByName(kids, kids[k].name)| && ByName(kids, kids[k].name)[m] == kids[k]
      ensures EntryAt(sibs, kids[k].name, j)
    {
      ByNameHas(kids, kids[k]);
      m :| 0 <= m < |ByName(kids, kids[k].name)| && ByName(kids, kids[k].name)[m] == kids[k];
      var named := ByName(sibs, kids[k].name);
      assert named != [];
      j := FirstOf(sibs, kids[k].name);
    }

    static lemma {:induction false} FirstOf(s: seq<Tag>, n: string) returns (j: nat)
      requires ByName(s, n) != []
      ensures EntryAt(s, n, j)
    {
      if s[0].name == n {
        j := 0;
      } else {
        j := FirstOf(s[1..], n);
        assert forall i | 0 < i < j + 1 :: s[i] == s[1..][i - 1];
        j := j + 1;
      }
    }

    /** Hands the sibling link of `xml` to the next tag of its name. */
    static method PassOn(xml: Tag, ghost s: seq<Tag>, ghost k: nat, ghost m: nat, ghost sibs: seq<Tag>)
      requires Distinct(s) && k < |s| && s[k] == xml
      requires m < |ByName(s, xml.name)| && ByName(s, xml.name)[m] == xml
      requires xml.next == At(ByName(s, xml.name), m + 1)
      requires SiblingChain(sibs)
      modifies (if xml.next == null then {} else {xml.next})`sibling
      ensures Loose(s, k, m, sibs) ==> SiblingChain(sibs)
      ensures forall i | 0 <= i < |sibs| && sibs[i] != xml.next :: sibs[i].sibling == At(sibs, i + 1)
      ensures xml.next != null ==> xml.next.sibling == xml.sibling
      ensures xml.sibling == old(xml.sibling)
    {
      ByNameDistinct(s, xml.name);
      DistinctPairs(ByName(s, xml.name));
      if xml.next != null {
        xml.next.sibling := xml.sibling;
      }
    }

    /** Takes `xml` off the `ordered` chain. */
    static method UnlinkOrdered(head: Tag, xml: Tag, ghost s: seq<Tag>, ghost k: nat)
      requires Distinct(s) && OrderedChain(s) && 0 < k < |s| && s[k] == xml && s[0] == head
      modifies s`ordered
      ensures OrderedChain(RemovedAt(s, k))
      ensures xml.ordered == old(xml.ordered)
    {
      DistinctPairs(s);
      var cur := head;
      ghost var i := 0;
      while cur.ordered != xml
        invariant 0 <= i < k && cur == s[i]
        decreases k - i
      {
        cur := cur.ordered;
        i := i + 1;
      }
      assert i + 1 == k;
      cur.ordered := cur.ordered.ordered;
      ghost var r := RemovedAt(s, k);
      forall x | 0 <= x < |r|
        ensures r[x].ordered == At(r, x + 1)
      {
        assert r[x] == s[if x < k then x else x + 1];
      }
    }

    /** The entry of the sibling chain in front of the first tag of another name than the head's. */
    static method WalkTo(head: Tag, name: string, ghost sibs: seq<Tag>, ghost j: nat) returns (cur: Tag)
      requires 0 < j < |sibs| && head == sibs[0] && SiblingChain(sibs)
      requires sibs[j].name == name && forall i | 0 <= i < j :: sibs[i].name != name
      ensures cur == sibs[j - 1]
    {
      cur := head;
      ghost var i := 0;
      while cur.sibling.name != name
        invariant 0 <= i < j && cur == sibs[i]
        decreases j - i
      {
        cur := cur.sibling;
        i := i + 1;
      }
      assert sibs[i + 1].name == name;
    }

    /** Takes `xml` off the sibling chain if it is there, in favour of the next tag of its name;
        returns a tag on whose `next` chain `xml` has to be looked for. */
    static method UnlinkSibling(head: Tag, xml: Tag, ghost s: seq<Tag>, ghost k: nat, ghost m: nat,
        ghost sibs: seq<Tag>, ghost j: nat)
      returns (cur: Tag)
      requires Distinct(s) && 0 < k < |s| && s[k] == xml && s[0] == head
      requires m < |ByName(s, xml.name)| && ByName(s, xml.name)[m] == xml
      requires xml.next == At(ByName(s, xml.name), m + 1)
      requires Selection(s, sibs) && Agrees(s, sibs) && SiblingChain(sibs)
      requires xml.next !in sibs && EntryAt(sibs, xml.name, j)
      requires xml.next != null ==> xml.next.sibling == xml.sibling
      modifies sibs`sibling
      ensures SiblingChain(CutSiblings(s, k, sibs, j))
      ensures cur in s && if m == 0 then cur.name != xml.name else cur == ByName(s, xml.name)[0]
    {
      EntryIsFirst(s, sibs, xml.name, j);
      ByNameDistinct(s, xml.name);
      DistinctPairs(ByName(s, xml.name));
      DistinctPairs(s);
      DistinctPairs(sibs);
      cur := head;
      if cur.name != xml.name {
        assert j > 0;
        cur := WalkTo(head, xml.name, sibs, j);
        if cur.sibling == xml {
          ReplaceEntry(cur, xml, s, k, sibs, j);
        } else {
          cur := cur.sibling;
        }
      } else {
        assert j == 0;
      }
    }

    static method ReplaceEntry(cur: Tag, xml: Tag, ghost s: seq<Tag>, ghost k: nat, ghost sibs: seq<Tag>, ghost j: nat)
      requires k < |s| && s[k] == xml
      requires 0 < j < |sibs| && sibs[j] == xml && cur == sibs[j - 1]
      requires ByName(s, xml.name) != [] && ByName(s, xml.name)[0] == xml
      requires xml.next == At(ByName(s, xml.name), 1) && xml.next !in sibs
      requires Distinct(sibs) && SiblingChain(sibs)
      requires xml.next != null ==> xml.next.sibling == xml.sibling
      modifies cur`sibling
      ensures SiblingChain(CutSiblings(s, k, sibs, j))
    {
      DistinctPairs(sibs);
      cur.sibling := if xml.next != null then xml.next else cur.sibling.sibling;
      ghost var r := CutSiblings(s, k, sibs, j);
      assert xml.next == null ==> |ByName(s, xml.name)| == 1;
      forall i | 0 <= i < |r|
        ensures r[i].sibling == At(r, i + 1)
      {
        if xml.next == null {
          assert r[i] == sibs[if i < j then i else i + 1];
        } else if i != j {
          assert r[i] == sibs[i];
        }
      }
    }

    /** Takes `xml` off the `next` chain that `first` is on, if it is on it behind that tag. */
    static method UnlinkNext(first: Tag, xml: Tag, ghost same: seq<Tag>, ghost a: nat, ghost m: nat)
      requires a < |same| && first == same[a] && Distinct(same) && NextChain(same)
      requires if m < |same| then m > a && same[m] == xml else xml !in same
      modifies same`next
      ensures NextChain(if m < |same| then RemovedAt(same, m) else same)
      ensures xml.next == old(xml.next)
    {
      DistinctPairs(same);
      var cur := first;
      ghost var i := a;
      while cur.next != null && cur.next != xml
        invariant a <= i < |same| && cur == same[i] && (m < |same| ==> i < m)
        decreases |same| - i
      {
        cur := cur.next;
        i := i + 1;
      }
      if cur.next != null {
        assert i + 1 == m;
        cur.next := cur.next.next;
        ghost var r := RemovedAt(same, m);
        forall x | 0 <= x < |r|
          ensures r[x].next == At(r, x + 1)
        {
          assert r[x] == same[if x < m then x else x + 1];
        }
      }
    }

    /** Takes `xml` off the `next` chain of its name; `first` heads that chain, or is on another one if
        `xml` heads its own. */
    static method UnlinkByName(first: Tag, xml: Tag, ghost s: seq<Tag>, ghost k: nat, ghost m: nat)
      requires Distinct(s) && NextChains(s) && k < |s| && s[k] == xml
      requires m < |ByName(s, xml.name)| && ByName(s, xml.name)[m] == xml
      requires first in s && if m == 0 then first.name != xml.name else first == ByName(s, xml.name)[0]
      modifies s`next
      ensures NextChains(RemovedAt(s, k))
    {
      ghost var own, same := ByName(s, xml.name), ByName(s, first.name);
      assert NextChainOf(s, xml.name) && NextChainOf(s, first.name);
      ByNameDistinct(s, xml.name);
      ByNameDistinct(s, first.name);
      DistinctPairs(own);
      forall i | 0 <= i < |same| ensures same[i] in s { assert same[i] in same; }
      assert NextChain(own);
      ByNameHas(s, first);
      ghost var a: nat :| a < |same| && same[a] == first;
      UnlinkNext(first, xml, same, a, if first.name == xml.name then m else |same|);
      assert NextChain(RemovedAt(own, m)) by {
        if first.name != xml.name {
          assert NextChain(own) by { assert old(NextChain(own)); }
          RemovedHead(own);
        }
      }
      forall n: string | n != xml.name
        ensures NextChainOf(s, n)
      {
        if n != first.name {
          assert old(NextChainOf(s, n));
        } else {
          assert NextChain(same);
        }
      }
      NamesKeptRemoved(s, k, m);
    }

    static lemma {:induction false} RemovedHead(same: seq<Tag>)
      requires same != [] && NextChain(same)
      ensures NextChain(RemovedAt(same, 0))
    {
      var r := RemovedAt(same, 0);
      forall i | 0 <= i < |r|
        ensures r[i].next == At(r, i + 1)
      {
        assert r[i] == same[i + 1];
      }
    }

    /** Takes a child other than the first off the list and off the `ordered` chain. */
    method Unthread(xml: Tag, ghost k: nat)
      requires Threaded() && 0 < k < |kids| && kids[k] == xml
      modifies this`kids, kids`ordered
      ensures Threaded()
      ensures kids == RemovedAt(old(kids), k)
    {
      UnlinkOrdered(child, xml, kids, k);
      Delist(k);
    }

    ghost method Delist(k: nat)
      requires this !in kids && Distinct(kids) && SortedByOffset(kids) && ChildrenOf(kids, this)
      requires k < |kids| && OrderedChain(RemovedAt(kids, k)) && child == At(RemovedAt(kids, k), 0)
      modifies this`kids
      ensures Threaded()
      ensures kids == RemovedAt(old(kids), k)
    {
      ghost var s := kids;
      RemovedShape(s, k);
      kids := RemovedAt(s, k);
      assert OrderedChain(kids) by { assert old(OrderedChain(RemovedAt(s, k))); }
      assert ChildrenOf(kids, this) by { assert old(ChildrenOf(s, this)); }
    }

    static method Unindex(head: Tag, xml: Tag, ghost s: seq<Tag>, ghost k: nat, ghost m: nat, ghost sibs: seq<Tag>,
        ghost j: nat)
      requires Distinct(s) && NextChains(s) && 0 < k < |s| && s[k] == xml && s[0] == head
      requires m < |ByName(s, xml.name)| && ByName(s, xml.name)[m] == xml
      requires xml.next == At(ByName(s, xml.name), m + 1)
      requires Selection(s, sibs) && Agrees(s, sibs) && Loose(s, k, m, sibs) && SiblingChain(sibs)
      requires EntryAt(sibs, xml.name, j)
      requires xml.next != null ==> xml.next.sibling == xml.sibling
      modifies s`next, s`sibling
      ensures NextChains(RemovedAt(s, k))
      ensures SiblingChain(CutSiblings(s, k, sibs, j))
    {
      var cur := UnlinkSibling(head, xml, s, k, m, sibs, j);
      assert NextChains(s) by { assert old(NextChains(s)); }
      label Off:
      UnlinkByName(cur, xml, s, k, m);
      assert SiblingChain(CutSiblings(s, k, sibs, j)) by { assert old@Off(SiblingChain(CutSiblings(s, k, sibs, j))); }
    }

    /** Cuts a child other than the first. */
    method CutLater(xml: Tag, ghost k: nat, ghost m: nat, ghost j: nat)
      requires Threaded() && Indexed() && Complete()
      requires 0 < k < |kids| && kids[k] == xml && Loose(kids, k, m, sibs)
      requires m < |ByName(kids, xml.name)| && ByName(kids, xml.name)[m] == xml
      requires EntryAt(sibs, xml.name, j)
      requires xml.next == At(ByName(kids, xml.name), m + 1)
      requires xml.next != null ==> xml.next.sibling == xml.sibling
      modifies this`kids, this`sibs, kids`ordered, kids`next, kids`sibling
      ensures Threaded() && Indexed() && Complete() && (old(Exact()) ==> Exact())
      ensures kids == RemovedAt(old(kids), k)
    {
      hide NextChains, SiblingChain, OrderedChain, ChildrenOf, SortedByOffset, Distinct, Selection, Agrees, OnlyFirsts,
          ByName, Loose, EntryAt;
      ghost var s, chain := kids, sibs;
      var head := child;
      Unthread(xml, k);
      assert NextChains(s) by { assert old(NextChains(s)); }
      assert SiblingChain(chain) by { assert old(SiblingChain(chain)); }
      CutLaterChain(s, k, m, chain, j);
      sibs := CutSiblings(s, k, chain, j);
      label Out:
      Unindex(head, xml, s, k, m, chain, j);
      assert Threaded() by { assert old@Out(Threaded()); }
    }

    /** Cuts the first child; its sibling link was handed on before. */
    method CutFirst(xml: Tag)
      requires Threaded() && NextChains(kids) && Selection(kids, sibs) && Complete()
      requires kids != [] && child == xml && xml.next == At(ByName(kids, xml.name), 1)
      requires xml.next != null ==> xml.next.sibling == xml.sibling
      requires forall i | 0 <= i < |sibs| && sibs[i] != xml.next :: sibs[i].sibling == At(sibs, i + 1)
      modifies this`child, this`kids, this`sibs
      ensures Threaded() && NextChains(kids) && kids == RemovedAt(old(kids), 0) && child == At(old(kids), 1)
      ensures old(xml.next !in sibs) ==>
                && Indexed()
                && (Complete() <==> old(xml.ordered == if xml.next != null then xml.next else xml.sibling))
                && (Complete() && old(Exact()) ==> Exact())
      ensures old(xml.next in sibs) ==> sibs == old(sibs)
    {
      ghost var r := sibs;
      if xml.next !in sibs {
        r := PlanHead(xml);
      }
      Behead(xml, r);
    }

    lemma {:induction false} PlanHead(xml: Tag) returns (r: seq<Tag>)
      requires Threaded() && NextChains(kids) && Selection(kids, sibs) && SiblingChain(sibs) && Complete()
      requires kids != [] && child == xml && xml.next == At(ByName(kids, xml.name), 1) && xml.next !in sibs
      requires xml.next != null ==> xml.next.sibling == xml.sibling
      ensures SiblingChain(r) && Selection(RemovedAt(kids, 0), r)
      ensures Agrees(RemovedAt(kids, 0), r) <==> xml.ordered == if xml.next != null then xml.next else xml.sibling
      ensures Agrees(RemovedAt(kids, 0), r) && Exact() ==> OnlyFirsts(RemovedAt(kids, 0), r)
    {
      assert xml.ordered == At(kids, 1) && xml.sibling == At(sibs, 1);
      assert ByName(kids, xml.name)[0] == xml;
      r := NewHeadChain(xml, kids, sibs);
    }

    method Behead(xml: Tag, ghost r: seq<Tag>)
      requires Threaded() && NextChains(kids) && kids != [] && child == xml
      modifies this`child, this`kids, this`sibs
      ensures Threaded() && NextChains(kids) && child == At(old(kids), 1)
      ensures kids == RemovedAt(old(kids), 0) && sibs == r
    {
      ghost var s := kids;
      HeadNext(kids);
      assert xml.ordered == At(kids, 1);
      child := xml.ordered;
      HeadOrdered();
      sibs := r;
      assert NextChains(kids) by { assert old(NextChains(RemovedAt(s, 0))); }
    }

    static lemma {:induction false} NewHeadChain(xml: Tag, s: seq<Tag>, chain: seq<Tag>) returns (r: seq<Tag>)
      requires s != [] && Distinct(s) && chain != [] && s[0] == chain[0] == xml
      requires Selection(s, chain) && SiblingChain(chain) && Agrees(s, chain) && xml.next !in chain
      requires xml.ordered == At(s, 1) && xml.sibling == At(chain, 1)
      requires ByName(s, xml.name) != [] && ByName(s, xml.name)[0] == xml && xml.next == At(ByName(s, xml.name), 1)
      requires xml.next != null ==> xml.next.sibling == xml.sibling
      ensures SiblingChain(r) && Selection(RemovedAt(s, 0), r)
      ensures Agrees(RemovedAt(s, 0), r) <==> xml.ordered == if xml.next != null then xml.next else xml.sibling
      ensures Agrees(RemovedAt(s, 0), r) && OnlyFirsts(s, chain) ==> OnlyFirsts(RemovedAt(s, 0), r)
    {
      if HeadPassesOn(s, chain) {
        CutHeadKeeps(s, chain);
        HeadChain(xml, s, chain);
        r := CutSiblings(s, 0, chain, 0);
      } else {
        var i := CutHeadLoses(s, chain);
        r := chain[i..];
      }
    }

    // ----------------------------------------------------------------------- lookup by name, step by step

    /** Where a walk along the sibling chain for the name `n` has come to after so many steps. */
    static ghost function Look(t: Tag?, n: string, steps: nat): Looked
      reads *
    {
      if t == null || t.name == n then Stopped(t)
      else if steps == 0 then Walking
      else Look(t.sibling, n, steps - 1)
    }

    /** Every lookup by name ends, at the first child of that name. */
    ghost predicate Searchable()
      reads *
    {
      forall n: string :: Finds(n)
    }

    ghost predicate Finds(n: string)
      reads *
    {
      exists steps: nat :: Look(child, n, steps) == Stopped(At(ByName(kids, n), 0))
    }

    static lemma {:induction false} LookOnce(t: Tag?, n: string, a: nat, b: nat)
      requires Look(t, n, a).Stopped? && Look(t, n, b).Stopped?
      ensures Look(t, n, a) == Look(t, n, b)
      decreases a
    {
      if t != null && t.name != n {
        LookOnce(t.sibling, n, a - 1, b - 1);
      }
    }

    static lemma {:induction false} LookAlong(c: seq<Tag>, n: string)
      requires SiblingChain(c)
      ensures Look(At(c, 0), n, |c|) == Stopped(At(ByName(c, n), 0))
      decreases |c|
    {
      if c != [] && c[0].name != n {
        TailChain(c, 1);
        LookAlong(c[1..], n);
        assert c[0].sibling == At(c[1..], 0);
      }
    }

    static lemma {:induction false} TailChain(c: seq<Tag>, i: nat)
      requires SiblingChain(c) && i <= |c|
      ensures SiblingChain(c[i..])
    {
      forall k | 0 <= k < |c[i..]|
        ensures c[i..][k].sibling == At(c[i..], k + 1)
      {
        assert c[i..][k] == c[i + k];
      }
    }

    /** On an acyclic chain every lookup ends; it finds the right tag exactly if the chain agrees. */
    lemma {:induction false} SearchAlong(c: seq<Tag>)
      requires SiblingChain(c) && child == At(c, 0)
      ensures Searchable() <==> Agrees(kids, c)
    {
      hide Look, ByName;
      forall n: string
        ensures Finds(n) <==> At(ByName(c, n), 0) == At(ByName(kids, n), 0)
      {
        LookAlong(c, n);
        if steps: nat :| Look(child, n, steps) == Stopped(At(ByName(kids, n), 0)) {
          LookOnce(child, n, steps, |c|);
        }
      }
    }

    /** A name that none of the tags has. */
    static ghost function OtherThan(s: seq<Tag>): (n: string)
      ensures forall i | 0 <= i < |s| :: |s[i].name| < |n|
    {
      if s == [] then "x" else OtherThan(s[1..]) + s[0].name
    }

    /** A walk over tags each of which leads to another of them does not end by itself. */
    static lemma {:induction false} NeverStops(t: Tag, c: seq<Tag>, n: string, steps: nat)
      requires t in c && forall i | 0 <= i < |c| :: c[i].name != n && c[i].sibling != null && c[i].sibling in c
      ensures Look(t, n, steps) == Walking
      decreases steps
    {
      if steps > 0 {
        NeverStops(t.sibling, c, n, steps - 1);
      }
    }

    /** When the first child is cut and the next tag of its name is on the sibling chain as well, that tag
        leads back to the entry behind the old first child: some lookup never ends, or misses that tag. */
    lemma {:induction false} LoopLoses(s: seq<Tag>, c: seq<Tag>, i: nat)
      requires s != [] && Distinct(s) && Selection(s, c) && Agrees(s, c)
      requires kids == RemovedAt(s, 0) && child == At(s, 1)
      requires 0 < i < |c| && |ByName(s, s[0].name)| > 1 && ByName(s, s[0].name)[1] == c[i]
      requires c[i].sibling == c[1]
      requires forall q {:trigger c[q].sibling} | 0 < q < |c| && q != i :: c[q].sibling == At(c, q + 1)
      ensures !Searchable()
    {
      hide Look, ByName, Agrees, Distinct;
      var p := SecondOnChain(s, c, i);
      if p <= i {
        var loop, n := c[1..i + 1], OtherThan(s);
        forall q | 0 <= q < |loop|
          ensures loop[q].name != n && loop[q].sibling != null && loop[q].sibling in loop
        {
          assert loop[q] == c[q + 1] && c[q + 1] in s;
          assert loop[q].sibling == if q + 1 == i then loop[0] else loop[q + 1];
        }
        forall steps: nat
          ensures Look(child, n, steps) == Walking
        {
          assert loop[p - 1] == child;
          NeverStops(child, loop, n, steps);
        }
        assert !Finds(n);
      } else {
        HeadOfName(s);
        LateLoses(s, c, i, p);
      }
    }

    /** The second child of all stands on the chain behind the first. */
    static lemma {:induction false} SecondOnChain(s: seq<Tag>, c: seq<Tag>, i: nat) returns (p: nat)
      requires s != [] && Distinct(s) && Selection(s, c) && Agrees(s, c)
      requires 0 < i < |c| && |ByName(s, s[0].name)| > 1 && ByName(s, s[0].name)[1] == c[i]
      ensures 0 < p < |c| && |s| > 1 && c[p] == s[1]
    {
      assert |s| > 1;
      if s[1].name == s[0].name {
        SecondOfName(s);
        p := i;
      } else if At(s, 1) != c[i] {
        p := SecondEntry(s, c);
      } else {
        p := i;
      }
    }

    static lemma {:induction false} HeadOfName(s: seq<Tag>)
      requires s != []
      ensures ByName(s, s[0].name) != [] && ByName(s, s[0].name)[0] == s[0]
    {
    }

    lemma {:induction false} LateLoses(s: seq<Tag>, c: seq<Tag>, i: nat, p: nat)
      requires s != [] && Distinct(s) && Distinct(c) && kids == RemovedAt(s, 0)
      requires 0 < i < p < |c| && child == c[p]
      requires |ByName(s, s[0].name)| > 1 && ByName(s, s[0].name)[0] == s[0] && ByName(s, s[0].name)[1] == c[i]
      requires forall q {:trigger c[q].sibling} | 0 < q < |c| && q != i :: c[q].sibling == At(c, q + 1)
      ensures !Searchable()
    {
      var late, n := c[p..], s[0].name;
      forall q | 0 <= q < |late|
        ensures late[q].sibling == At(late, q + 1)
      {
        assert late[q] == c[p + q];
      }
      SearchAlong(late);
      DistinctPairs(c);
      assert c[i] !in late;
      NameRemoved(s, 0, 0);
      assert At(ByName(kids, n), 0) == c[i] != At(ByName(late, n), 0);
    }

    /** The sibling chain that starts at the tag taking over from the head. */
    static lemma {:induction false} HeadChain(xml: Tag, s: seq<Tag>, chain: seq<Tag>)
      requires s != [] && chain != [] && s[0] == xml == chain[0]
      requires ByName(s, xml.name) != [] && xml.next == At(ByName(s, xml.name), 1)
      requires SiblingChain(chain)
      requires xml.next != null ==> xml.next.sibling == xml.sibling
      ensures SiblingChain(CutSiblings(s, 0, chain, 0))
    {
      var r := CutSiblings(s, 0, chain, 0);
      assert xml.next == null ==> |ByName(s, xml.name)| == 1;
      forall i | 0 <= i < |r|
        ensures r[i].sibling == At(r, i + 1)
      {
        if xml.next == null {
          assert r[i] == chain[i + 1];
        } else if i > 0 {
          assert r[i] == chain[i];
        }
      }
    }

    static lemma {:induction false} HeadNext(s: seq<Tag>)
      requires s != [] && Distinct(s) && NextChains(s)
      ensures NextChains(RemovedAt(s, 0))
    {
      assert NextChainOf(s, s[0].name);
      assert ByName(s, s[0].name)[0] == s[0];
      RemovedHead(ByName(s, s[0].name));
      NamesKeptRemoved(s, 0, 0);
    }

    ghost method HeadOrdered()
      requires this !in kids && Distinct(kids) && SortedByOffset(kids) && ChildrenOf(kids, this)
      requires kids != [] && OrderedChain(kids) && child == At(kids, 1)
      modifies this`kids
      ensures Threaded() && kids == old(kids)[1..] == RemovedAt(old(kids), 0)
    {
      ghost var r := RemovedAt(kids, 0);
      assert r == kids[1..];
      assert forall i | 0 <= i < |kids| :: kids[i].ordered == At(kids, i + 1);
      forall i | 0 <= i < |r|
        ensures r[i].ordered == At(r, i + 1)
      {
        assert r[i] == kids[i + 1];
      }
      Delist(0);
    }

    /** Neither the tag nor the one behind it of its name is on the sibling chain as a later entry. */
    ghost predicate Loosely(xml: Tag)
      reads this`kids, this`sibs, xml`next
    {
      xml.next !in sibs && (xml in sibs ==> At(ByName(kids, xml.name), 0) == xml)
    }

    /** Cuts the child `xml`.  The list loses exactly that tag, and every lookup by name still ends at the
        right tag unless `xml` is the first child and the new first child is not the tag that takes over its
        place on the sibling chain, or that tag was on the chain already: then the chain leads back to itself. */
    method Cut(xml: Tag) returns (ghost k: nat)
      requires Walkable() && Complete() && xml in kids
      requires child == xml || Loosely(xml) || Exact()
      modifies this`child, this`kids, this`sibs, kids`ordered, kids`next, kids`sibling
      ensures Threaded() && NextChains(kids)
      ensures k < |old(kids)| && old(kids)[k] == xml && kids == RemovedAt(old(kids), k)
      ensures Searchable() <==> old(child != xml || (&& xml.next !in sibs
                                  && xml.ordered == if xml.next != null then xml.next else xml.sibling))
      ensures old(Exact() || xml.next !in sibs) ==> Walkable() && (Complete() <==> Searchable())
      ensures old(Exact()) && Searchable() ==> Exact()
      ensures old(child == xml && xml.next != null && xml.next == xml.ordered == xml.sibling) ==>
                child != null && child.sibling == child
      ensures xml !in kids && xml.ordered == null && xml.sibling == null && xml.next == null
    {
      ghost var m, j;
      k, m, j := Find(xml);
      ghost var s, c, next := kids, sibs, xml.next;
      ghost var loose := LooseHere(xml, k, m, j);
      TakeAway(xml, k, m, j);
      if loose {
        SearchAlong(sibs);
      } else {
        ghost var i: nat :| i < |c| && c[i] == next;
        DistinctPairs(c);
        LoopLoses(s, c, i);
      }
    }

    /** What decides whether the sibling chain stays right when a tag is cut that is not a later entry. */
    ghost predicate PassesOn(xml: Tag)
      reads this`child, xml`next, xml`sibling, xml`ordered
    {
      child != xml || xml.ordered == if xml.next != null then xml.next else xml.sibling
    }

    method TakeAway(xml: Tag, ghost k: nat, ghost m: nat, ghost j: nat)
      requires Walkable() && Complete() && k < |kids| && kids[k] == xml && (k == 0 <==> child == xml)
      requires m < |ByName(kids, xml.name)| && ByName(kids, xml.name)[m] == xml && EntryAt(sibs, xml.name, j)
      requires xml.next == At(ByName(kids, xml.name), m + 1) && xml !in RemovedAt(kids, k)
      requires xml.next !in sibs <==> Loose(kids, k, m, sibs)
      requires child == xml ==> m == 0
      requires child != xml ==> xml.next !in sibs
      modifies this`child, this`kids, this`sibs, kids`ordered, kids`next, kids`sibling
      ensures Threaded() && NextChains(kids) && kids == RemovedAt(old(kids), k)
      ensures old(xml.next !in sibs) ==>
                Indexed() && (Complete() <==> old(PassesOn(xml))) && (Complete() && old(Exact()) ==> Exact())
      ensures old(xml.next in sibs) ==>
                && sibs == old(sibs) && child == At(old(kids), 1) && old(xml.next).sibling == At(sibs, 1)
                && forall q {:trigger sibs[q].sibling} | 0 < q < |sibs| && sibs[q] != old(xml.next) ::
                     sibs[q].sibling == At(sibs, q + 1)
      ensures old(child == xml && xml.next != null && xml.next == xml.ordered == xml.sibling) ==>
                child != null && child.sibling == child
      ensures xml.ordered == null && xml.sibling == null && xml.next == null
    {
      Detach(xml, k, m);
      if child == xml {
        CutFirst(xml);
      } else {
        CutLater(xml, k, m, j);
      }
      Clear(xml);
    }

    lemma {:induction false} LooseHere(xml: Tag, k: nat, m: nat, j: nat) returns (loose: bool)
      requires Walkable() && Complete() && k < |kids| && kids[k] == xml && (k == 0 <==> child == xml)
      requires m < |ByName(kids, xml.name)| && ByName(kids, xml.name)[m] == xml && EntryAt(sibs, xml.name, j)
      requires xml.next == At(ByName(kids, xml.name), m + 1)
      requires child == xml || Loosely(xml) || Exact()
      ensures loose <==> Loose(kids, k, m, sibs)
      ensures loose <==> xml.next !in sibs
      ensures !loose ==> child == xml && !Exact()
      ensures child == xml ==> m == 0 && ByName(kids, xml.name)[0] == xml
    {
      loose := xml.next !in sibs;
      ByNameDistinct(kids, xml.name);
      DistinctPairs(ByName(kids, xml.name));
      if Exact() {
        ExactIsLoose(kids, k, m, sibs, j);
      }
    }

    lemma {:induction false} Find(xml: Tag) returns (k: nat, m: nat, j: nat)
      requires Threaded() && Indexed() && Complete() && xml in kids
      ensures k < |kids| && kids[k] == xml && (k == 0 <==> child == xml)
      ensures m < |ByName(kids, xml.name)| && ByName(kids, xml.name)[m] == xml
      ensures EntryAt(sibs, xml.name, j)
      ensures xml.next == At(ByName(kids, xml.name), m + 1)
      ensures xml !in RemovedAt(kids, k)
    {
      k :| 0 <= k < |kids| && kids[k] == xml;
      m, j := Locate(k);
      assert NextChainOf(kids, xml.name);
      DistinctPairs(kids);
      RemovedDistinct(kids, k);
    }

    method Detach(xml: Tag, ghost k: nat, ghost m: nat)
      requires Threaded() && Indexed() && Complete()
      requires k < |kids| && kids[k] == xml
      requires m < |ByName(kids, xml.name)| && ByName(kids, xml.name)[m] == xml
      requires xml.next == At(ByName(kids, xml.name), m + 1)
      modifies (if xml.next == null then {} else {xml.next})`sibling
      ensures Threaded() && NextChains(kids) && (Loose(kids, k, m, sibs) ==> Indexed())
      ensures forall i | 0 <= i < |sibs| && sibs[i] != xml.next :: sibs[i].sibling == At(sibs, i + 1)
      ensures xml.next != null ==> xml.next.sibling == xml.sibling
      ensures xml.sibling == old(xml.sibling)
    {
      PassOn(xml, kids, k, m, sibs);
      assert NextChains(kids) by { assert old(NextChains(kids)); }
      assert Threaded() by { assert old(Threaded()); }
    }

    method Clear(xml: Tag)
      requires Threaded() && NextChains(kids) && xml !in kids
      modifies xml`ordered, xml`sibling, xml`next
      ensures Threaded() && NextChains(kids) && (old(Indexed()) ==> Indexed())
      ensures xml.ordered == null && xml.sibling == null && xml.next == null
    {
      ghost var indexed := Indexed();
      xml.ordered, xml.sibling, xml.next := null, null, null;
      assert NextChains(kids) by { assert old(NextChains(kids)); }
      assert Threaded() by { assert old(Threaded()); }
      assert indexed ==> forall i | 0 <= i < |sibs| :: sibs[i] != xml;
    }

    // -------------------------------------------------------------------------- document order

    /** Adds a child behind all others, as the parser does: the sibling chain then visits the first
        tag of every name in document order. */
    method Append(xml: Tag, off: nat)
      requires Walkable() && Complete() && Exact() && sibs == Firsts(kids)
      requires xml != this && xml !in kids
      requires kids != [] ==> kids[|kids| - 1].off <= off
      modifies this`child, this`kids, this`sibs, kids`ordered, kids`next, kids`sibling
      modifies xml`ordered, xml`next, xml`sibling, xml`off, xml`parent
      ensures Walkable() && Complete() && Exact() && sibs == Firsts(kids)
      ensures kids == old(kids) + [xml] && xml.off == off
    {
      hide Walkable, Complete, Exact, ByName, Firsts, InsertedAt;
      HeadNotPast(off);
      ghost var s := kids;
      ghost var p := Insert(xml, off);
      assert kids == s + [xml];
      FirstsAppended(s, xml);
    }

    lemma {:induction false} HeadNotPast(off: nat)
      requires Walkable() && (kids != [] ==> kids[|kids| - 1].off <= off)
      ensures child == null || child.off <= off
      ensures forall p: nat | SplitsAt(kids, p, off) :: p == |kids|
    {
      hide Indexed, Distinct, ChildrenOf, OrderedChain;
    }

    /** Walks the sibling chain, as the profile reader does with the properties of a group. */
    method VisitSiblings() returns (visited: seq<Tag>)
      requires Walkable()
      ensures visited == sibs
    {
      visited := [];
      var prop := child;
      while prop != null
        invariant |visited| <= |sibs| && visited == sibs[..|visited|] && prop == At(sibs, |visited|)
        decreases |sibs| - |visited|
      {
        visited := visited + [prop];
        prop := prop.sibling;
      }
    }

    // -------------------------------------------------------------------------- runs of insertions

    /** The children and their offsets are those of `entries`. */
    ghost predicate PlacedAs(entries: seq<Entry>)
      reads this`kids, kids`off
    {
      MatchesEntries(kids, entries)
    }

    method InsertEntry(e: Entry, ghost entries: seq<Entry>)
      requires Walkable() && Complete() && PlacedAs(entries)
      requires e.tag != this && e.tag !in kids
      modifies this`child, this`kids, this`sibs, kids`ordered, kids`next, kids`sibling
      modifies e.tag`ordered, e.tag`next, e.tag`sibling, e.tag`off, e.tag`parent
      ensures Walkable() && Complete() && PlacedAs(StableInsert(entries, e))
      ensures forall i {:trigger kids[i]} | 0 <= i < |kids| :: kids[i] in old(kids) || kids[i] == e.tag
    {
      ghost var s := kids;
      ghost var p := Insert(e.tag, e.off);
      assert MatchesEntries(s, entries) by { assert old(MatchesEntries(s, entries)); }
      MatchesInserted(s, entries, p, e);
    }

    /** Any run of insertions leaves the children in the stable order of their offsets, and every
        lookup by name intact. */
    method InsertAll(ins: seq<Entry>)
      requires kids == [] && Walkable() && Complete()
      requires forall i, j | 0 <= i < j < |ins| :: ins[i].tag != ins[j].tag
      requires forall i | 0 <= i < |ins| :: ins[i].tag != this
      modifies this, set e | e in ins :: e.tag
      ensures Walkable() && Complete() && PlacedAs(StableSort(ins))
    {
      var k := 0;
      ghost var tags := set e | e in ins :: e.tag;
      while k < |ins|
        invariant 0 <= k <= |ins|
        invariant Walkable() && Complete() && PlacedAs(StableSort(ins[..k]))
        invariant forall i {:trigger kids[i]} | 0 <= i < |kids| ::
                    kids[i] in tags && exists j :: 0 <= j < k && ins[j].tag == kids[i]
      {
        assert ins[k] in ins;
        InsertEntry(ins[k], StableSort(ins[..k]));
        assert ins[..k + 1][..k] == ins[..k];
        k := k + 1;
      }
      assert ins[..k] == ins;
    }

    // ------------------------------------------------------------------ runs of insertions and cuts

    method EditOne(op: Edit, ghost l: seq<Entry>)
      requires Walkable() && Complete() && Exact() && PlacedAs(l) && Legal(l, op) && TagOf(op) != this
      modifies this`child, this`kids, this`sibs, kids`ordered, kids`next, kids`sibling
      modifies TagOf(op)`ordered, TagOf(op)`next, TagOf(op)`sibling, TagOf(op)`off, TagOf(op)`parent
      ensures Walkable() && Complete() && Exact() && PlacedAs(Edited(l, op))
      ensures forall i {:trigger kids[i]} | 0 <= i < |kids| :: kids[i] in old(kids) || kids[i] == TagOf(op)
    {
      ghost var s := kids;
      match op
      case Add(e) =>
        NotListed(s, l, e.tag);
        ghost var p := Insert(e.tag, e.off);
        assert MatchesEntries(s, l) by { assert old(MatchesEntries(s, l)); }
        MatchesInserted(s, l, p, e);
      case Drop(t) =>
        Listed(s, l, t);
        ghost var k := Cut(t);
        MatchesRemoved(s, l, k);
    }

    /** Over any interleaving of insertions, none in front of a first child of the same name, and cuts
        of tags other than the first child, the index agrees with the plain list the edits give. */
    method EditAll(ops: seq<Edit>)
      requires kids == [] && Walkable() && Complete() && Exact()
      requires LegalRun([], ops) && forall i | 0 <= i < |ops| :: TagOf(ops[i]) != this
      modifies this, set op | op in ops :: TagOf(op)
      ensures Walkable() && Complete() && Exact() && PlacedAs(EditedAll([], ops))
    {
      ghost var l: seq<Entry> := [];
      ghost var tags := set op | op in ops :: TagOf(op);
      var k := 0;
      while k < |ops|
        invariant 0 <= k <= |ops| && Walkable() && Complete() && Exact() && PlacedAs(l)
        invariant LegalRun(l, ops[k..]) && EditedAll(l, ops[k..]) == EditedAll([], ops)
        invariant forall i {:trigger kids[i]} | 0 <= i < |kids| :: kids[i] in tags
      {
        assert ops[k] in ops && ops[k..][1..] == ops[k + 1..];
        EditOne(ops[k], l);
        l := Edited(l, ops[k]);
        k := k + 1;
      }
    }
  }

  /** Children a, b, a: cutting the first leaves the second a out of reach by name. */
  method CutLosesName(dest: Tag)
    requires dest.Walkable() && dest.Complete() && dest.Exact()
    requires |dest.kids| == 3 && dest.kids[0].name == dest.kids[2].name != dest.kids[1].name
    modifies dest, dest.kids
    ensures dest.Walkable() && dest.kids == old(dest.kids)[1..]
    ensures old(dest.Searchable()) && !dest.Searchable()
  {
    hide Tag.Walkable, Tag.Complete, Tag.Exact, Tag.Searchable, ByName;
    ghost var first, other, left := dest.kids[0], dest.kids[1], dest.kids[2];
    assert dest.kids == [first, other, left];
    SameNameLinks(dest, first, other, left);
    IsSearchable(dest);
    ghost var k := dest.Cut(dest.child);
    assert k == 0;
  }

  /** Two children of the same name with both on the sibling chain, as `FrontInsertion` leaves them: cutting
      the first makes the second its own sibling, and looking up any other name never ends. */
  method CutLeavesLoop(dest: Tag)
    requires dest.Walkable() && dest.Complete() && !dest.Exact()
    requires |dest.kids| == 2 && dest.kids[0].name == dest.kids[1].name
    modifies dest, dest.kids
    ensures dest.kids == old(dest.kids)[1..] && dest.child == old(dest.kids[1]) == dest.child.sibling
    ensures old(dest.Searchable()) && !dest.Searchable()
  {
    hide Tag.Walkable, Tag.Complete, Tag.Exact, Tag.Searchable, ByName;
    BothOnChain(dest);
    IsSearchable(dest);
    ghost var k := dest.Cut(dest.child);
    assert k == 0;
  }

  lemma {:induction false} IsSearchable(dest: Tag)
    requires dest.Walkable() && dest.Complete()
    ensures dest.Searchable()
  {
    hide Tag.Searchable;
    dest.SearchAlong(dest.sibs);
  }

  lemma {:induction false} BothOnChain(dest: Tag)
    requires dest.Walkable() && dest.Complete() && !dest.Exact()
    requires |dest.kids| == 2 && dest.kids[0].name == dest.kids[1].name
    ensures var first, second := dest.kids[0], dest.kids[1];
            && dest.child == first != second && first.next == first.ordered == first.sibling == second
            && second in dest.sibs
  {
    var s, c := dest.kids, dest.sibs;
    var first, second, n := s[0], s[1], s[0].name;
    DistinctPairs(s);
    DistinctPairs(c);
    SecondOfName(s);
    assert NextChainOf(s, n);
    assert ByName(s, n)[0] == first && ByName(s, n)[0].next == second;
    var i :| 0 <= i < |c| && !(ByName(s, c[i].name) != [] && ByName(s, c[i].name)[0] == c[i]);
    assert c[0] == first && i > 0 && c[i] in s && c[i] == second;
    assert c[1] in s && c[1] != c[0];
    assert c[0].sibling == second && s[0].ordered == second;
  }

  /** A tag a in front of a tag a: the sibling chain has both, and lookup by name still works. */
  method FrontInsertion() returns (dest: Tag, first: Tag, second: Tag)
    ensures dest.Walkable() && dest.Complete() && !dest.Exact()
    ensures dest.kids == [first, second] && first.name == second.name
  {
    hide *;
    dest := NewParent();
    second := AppendNew(dest, "a", 5);
    assert dest.kids == [second];
    first := new Tag("a");
    TidyIs(dest);
    HeadIs(dest);
    ghost var p := dest.Insert(first, 0);
    OnlySplit(second, p, 0);
    assert dest.kids == [first, second];
  }

  lemma {:induction false} HeadIs(dest: Tag)
    requires dest.Walkable() && dest.kids != []
    ensures dest.child == dest.kids[0]
  {
  }

  lemma {:induction false} OnlySplit(t: Tag, p: nat, off: nat)
    requires SplitsAt([t], p, off) && off < t.off
    ensures p == 0
  {
    assert [t][0] == t;
  }

  /** Children a, b, a as `CutLosesName` takes them. */
  method ThreeChildren() returns (dest: Tag)
    ensures fresh(dest) && dest.Walkable() && dest.Complete() && dest.Exact()
    ensures |dest.kids| == 3 && dest.kids[0].name == dest.kids[2].name != dest.kids[1].name
  {
    hide *;
    dest := NewParent();
    var first := AppendNew(dest, "a", 0);
    var other := AppendNew(dest, "b", 1);
    assert dest.kids == [first, other];
    var left := AppendNew(dest, "a", 2);
    assert dest.kids == [first, other, left];
    TidyIs(dest);
  }

  /** Every chain is right, and the sibling chain is that of the first tags. */
  ghost predicate Tidy(dest: Tag)
    reads dest, dest.kids
  {
    dest.Walkable() && dest.Complete() && dest.Exact() && dest.sibs == Firsts(dest.kids)
  }

  lemma {:induction false} TidyIs(dest: Tag)
    requires Tidy(dest)
    ensures dest.Walkable() && dest.Complete() && dest.Exact()
  {
  }

  method NewParent() returns (dest: Tag)
    ensures fresh(dest) && dest.kids == [] && Tidy(dest)
  {
    dest := new Tag("top");
  }

  method AppendNew(dest: Tag, name: string, off: nat) returns (xml: Tag)
    requires Tidy(dest) && (dest.kids != [] ==> dest.kids[|dest.kids| - 1].off <= off)
    modifies dest, dest.kids
    ensures fresh(xml) && xml.name == name && xml.off == off
    ensures Tidy(dest) && dest.kids == old(dest.kids) + [xml]
    ensures forall i {:trigger dest.kids[i]} | 0 <= i < |old(dest.kids)| :: dest.kids[i].off == old(dest.kids[i].off)
  {
    hide Tag.Walkable, Tag.Complete, Tag.Exact, Firsts;
    xml := new Tag(name);
    dest.Append(xml, off);
  }

  lemma {:induction false} SameNameLinks(dest: Tag, first: Tag, other: Tag, left: Tag)
    requires dest.Walkable() && dest.kids == [first, other, left]
    requires first.name == left.name != other.name
    ensures dest.child == first && first.ordered == other && first.next == left
  {
    var n := first.name;
    assert NextChainOf(dest.kids, n);
    ByNameConcat([first], [other, left], n);
    ByNameConcat([other], [left], n);
    assert [first] + [other, left] == dest.kids && [other] + [left] == [other, left];
    assert ByName(dest.kids, n) == [first, left];
    assert ByName(dest.kids, n)[0].next == left;
    assert dest.kids[0].ordered == other;
  }

  // ---------------------------------------------------------------------------- stable insertion

  datatype Entry = Entry(tag: Tag, off: nat)

  ghost predicate MatchesEntries(s: seq<Tag>, entries: seq<Entry>)
    reads s`off
  {
    && |s| == |entries|
    && (forall i {:trigger entries[i]} {:trigger s[i].off} | 0 <= i < |s| ::
          s[i] == entries[i].tag && s[i].off == entries[i].off)
  }

  lemma {:induction false} MatchesInserted(s: seq<Tag>, entries: seq<Entry>, p: nat, e: Entry)
    requires MatchesEntries(s, entries) && SplitsAt(s, p, e.off) && e.tag.off == e.off
    ensures MatchesEntries(InsertedAt(s, p, e.tag), StableInsert(entries, e))
    ensures forall i {:trigger InsertedAt(s, p, e.tag)[i]} | 0 <= i <= |s| ::
              InsertedAt(s, p, e.tag)[i] in s || InsertedAt(s, p, e.tag)[i] == e.tag
  {
    assert forall i | 0 <= i < |s| :: entries[i].off == s[i].off;
    StableInsertAt(entries, p, e);
  }

  ghost function StableInsert(l: seq<Entry>, e: Entry): seq<Entry> {
    if l == [] || e.off < l[0].off then [e] + l else [l[0]] + StableInsert(l[1..], e)
  }

  ghost function StableSort(ins: seq<Entry>): seq<Entry> {
    if ins == [] then [] else StableInsert(StableSort(ins[..|ins| - 1]), ins[|ins| - 1])
  }

  /** The entries at offset `o`, in order. */
  ghost function AtOffset(l: seq<Entry>, o: nat): seq<Entry> {
    if l == [] then [] else (if l[0].off == o then [l[0]] else []) + AtOffset(l[1..], o)
  }

  ghost predicate Ascending(l: seq<Entry>) {
    forall i, j | 0 <= i < j < |l| :: l[i].off <= l[j].off
  }

  /** `StableSort` sorts by offset and keeps the insertion order of equal offsets. */
  lemma {:induction false} StableSortSorts(ins: seq<Entry>)
    ensures Ascending(StableSort(ins))
    ensures forall o: nat :: AtOffset(StableSort(ins), o) == AtOffset(ins, o)
  {
    if ins != [] {
      var init, last := ins[..|ins| - 1], ins[|ins| - 1];
      StableSortSorts(init);
      StableInsertSorts(StableSort(init), last);
      forall o: nat
        ensures AtOffset(StableSort(ins), o) == AtOffset(ins, o)
      {
        assert ins == init + [last];
        AtOffsetConcat(init, [last], o);
      }
    }
  }

  lemma {:induction false} StableInsertSorts(l: seq<Entry>, e: Entry)
    requires Ascending(l)
    ensures Ascending(StableInsert(l, e))
    ensures forall o: nat :: AtOffset(StableInsert(l, e), o) == AtOffset(l, o) + (if e.off == o then [e] else [])
  {
    hide AtOffset;
    StableInsertAscends(l, e);
    forall o: nat
      ensures AtOffset(StableInsert(l, e), o) == AtOffset(l, o) + (if e.off == o then [e] else [])
    {
      StableInsertAtOffset(l, e, o);
    }
  }

  lemma {:induction false} StableInsertAscends(l: seq<Entry>, e: Entry)
    requires Ascending(l)
    ensures Ascending(StableInsert(l, e))
    ensures forall i | 0 <= i < |StableInsert(l, e)| :: StableInsert(l, e)[i] in l || StableInsert(l, e)[i] == e
  {
    if l != [] && l[0].off <= e.off {
      var rest := StableInsert(l[1..], e);
      StableInsertAscends(l[1..], e);
      forall i | 0 <= i < |rest|
        ensures l[0].off <= rest[i].off
      {
        if rest[i] != e {
          var k :| 0 <= k < |l| - 1 && l[1..][k] == rest[i];
        }
      }
    }
  }

  lemma {:induction false} StableInsertAtOffset(l: seq<Entry>, e: Entry, o: nat)
    requires Ascending(l)
    ensures AtOffset(StableInsert(l, e), o) == AtOffset(l, o) + (if e.off == o then [e] else [])
  {
    hide Ascending;
    if l != [] && l[0].off <= e.off {
      var rest := StableInsert(l[1..], e);
      assert Ascending(l[1..]) by { AscendingTail(l); }
      StableInsertAtOffset(l[1..], e, o);
      assert ([l[0]] + rest)[1..] == rest;
    } else {
      assert ([e] + l)[1..] == l;
      NoneAtOffset(l, o, e.off);
    }
  }

  lemma {:induction false} AscendingTail(l: seq<Entry>)
    requires l != [] && Ascending(l)
    ensures Ascending(l[1..])
  {
  }

  lemma {:induction false} NoneAtOffset(l: seq<Entry>, o: nat, bound: nat)
    requires Ascending(l) && (l != [] ==> bound < l[0].off)
    ensures o <= bound ==> AtOffset(l, o) == []
  {
    if l != [] {
      NoneAtOffset(l[1..], o, bound);
    }
  }

  lemma {:induction false} AtOffsetConcat(a: seq<Entry>, b: seq<Entry>, o: nat)
    ensures AtOffset(a + b, o) == AtOffset(a, o) + AtOffset(b, o)
  {
    if a == [] {
      assert a + b == b;
    } else {
      assert (a + b)[1..] == a[1..] + b && (a + b)[0] == a[0];
      AtOffsetConcat(a[1..], b, o);
      var front := if a[0].off == o then [a[0]] else [];
      assert front + (AtOffset(a[1..], o) + AtOffset(b, o)) == front + AtOffset(a[1..], o) + AtOffset(b, o);
    }
  }

  /** A sorted list is determined by its entries at each offset, so the stable order is unique. */
  lemma {:induction false} StableOrderUnique(l: seq<Entry>, m: seq<Entry>)
    requires Ascending(l) && Ascending(m)
    requires forall o: nat :: AtOffset(l, o) == AtOffset(m, o)
    ensures l == m
  {
    if l == [] || m == [] {
      assert AtOffset(l, if l == [] then 0 else l[0].off) == AtOffset(m, if l == [] then 0 else l[0].off);
      assert AtOffset(l, if m == [] then 0 else m[0].off) == AtOffset(m, if m == [] then 0 else m[0].off);
    } else {
      assert AtOffset(l, l[0].off) == AtOffset(m, l[0].off);
      assert AtOffset(l, m[0].off) == AtOffset(m, m[0].off);
      if l[0].off < m[0].off {
        NoneAtOffset(m, l[0].off, l[0].off);
      } else if m[0].off < l[0].off {
        NoneAtOffset(l, m[0].off, m[0].off);
      }
      var o := l[0].off;
      assert AtOffset(l, o) == AtOffset(m, o);
      assert l[0] == AtOffset(l, o)[0] == m[0];
      forall k: nat
        ensures AtOffset(l[1..], k) == AtOffset(m[1..], k)
      {
        assert AtOffset(l, k) == AtOffset(m, k);
        var front := if l[0].off == k then [l[0]] else [];
        assert (front + AtOffset(l[1..], k))[|front|..] == AtOffset(l[1..], k);
        assert (front + AtOffset(m[1..], k))[|front|..] == AtOffset(m[1..], k);
      }
      StableOrderUnique(l[1..], m[1..]);
    }
  }

  lemma {:induction false} StableInsertAt(l: seq<Entry>, p: nat, e: Entry)
    requires p <= |l|
    requires forall i | 0 <= i < p :: l[i].off <= e.off
    requires p < |l| ==> e.off < l[p].off
    ensures StableInsert(l, e) == l[..p] + [e] + l[p..]
  {
    if p > 0 {
      StableInsertAt(l[1..], p - 1, e);
    }
  }

  // ------------------------------------------------------------------------------------ edits

  datatype Edit = Add(e: Entry) | Drop(t: Tag)

  function TagOf(op: Edit): Tag {
    if op.Add? then op.e.tag else op.t
  }

  ghost predicate IsListed(l: seq<Entry>, t: Tag) {
    l != [] && (l[0].tag == t || IsListed(l[1..], t))
  }

  ghost function Without(l: seq<Entry>, t: Tag): seq<Entry> {
    if l == [] then [] else if l[0].tag == t then l[1..] else [l[0]] + Without(l[1..], t)
  }

  ghost predicate Legal(l: seq<Entry>, op: Edit) {
    match op
    case Add(e) => !IsListed(l, e.tag) && !(l != [] && e.off < l[0].off && e.tag.name == l[0].tag.name)
    case Drop(t) => IsListed(l, t) && l[0].tag != t
  }

  ghost function Edited(l: seq<Entry>, op: Edit): seq<Entry> {
    match op
    case Add(e) => StableInsert(l, e)
    case Drop(t) => Without(l, t)
  }

  ghost predicate LegalRun(l: seq<Entry>, ops: seq<Edit>)
    decreases |ops|
  {
    ops == [] || (Legal(l, ops[0]) && LegalRun(Edited(l, ops[0]), ops[1..]))
  }

  ghost function EditedAll(l: seq<Entry>, ops: seq<Edit>): seq<Entry>
    decreases |ops|
  {
    if ops == [] then l else EditedAll(Edited(l, ops[0]), ops[1..])
  }

  /** A new tag may go anywhere but in front of a first child of its name, and takes its place by offset. */
  lemma {:induction false} AddByPlace(l: seq<Entry>, e: Entry, p: nat)
    requires forall i | 0 <= i < |l| :: l[i].tag != e.tag
    requires l == [] || l[0].off <= e.off || l[0].tag.name != e.tag.name
    requires p <= |l| && (forall i | 0 <= i < p :: l[i].off <= e.off) && (p < |l| ==> e.off < l[p].off)
    ensures Legal(l, Add(e)) && Edited(l, Add(e)) == l[..p] + [e] + l[p..]
  {
    if IsListed(l, e.tag) {
      var i := PlaceOf(l, e.tag);
    }
    StableInsertAt(l, p, e);
  }

  /** Any child but the first may be cut, and nothing else goes. */
  lemma {:induction false} DropByPlace(l: seq<Entry>, p: nat)
    requires 0 < p < |l| && forall i | 0 <= i < |l| && i != p :: l[i].tag != l[p].tag
    ensures Legal(l, Drop(l[p].tag)) && Edited(l, Drop(l[p].tag)) == l[..p] + l[p + 1..]
  {
    WithoutPlace(l, p);
  }

  lemma {:induction false} PlaceOf(l: seq<Entry>, t: Tag) returns (i: nat)
    requires IsListed(l, t)
    ensures i < |l| && l[i].tag == t
  {
    if l[0].tag == t {
      i := 0;
    } else {
      i := PlaceOf(l[1..], t);
      i := i + 1;
    }
  }

  lemma {:induction false} WithoutPlace(l: seq<Entry>, p: nat)
    requires p < |l| && forall i | 0 <= i < p :: l[i].tag != l[p].tag
    ensures IsListed(l, l[p].tag) && Without(l, l[p].tag) == l[..p] + l[p + 1..]
  {
    if p > 0 {
      WithoutPlace(l[1..], p - 1);
      assert l[..p] + l[p + 1..] == [l[0]] + (l[1..][..p - 1] + l[1..][p..]);
    }
  }

  lemma {:induction false} NotListed(s: seq<Tag>, l: seq<Entry>, t: Tag)
    requires MatchesEntries(s, l) && !IsListed(l, t)
    ensures t !in s
  {
    if l != [] {
      MatchesTail(s, l);
      NotListed(s[1..], l[1..], t);
      assert s == [s[0]] + s[1..];
    }
  }

  lemma {:induction false} Listed(s: seq<Tag>, l: seq<Entry>, t: Tag)
    requires MatchesEntries(s, l) && IsListed(l, t)
    ensures t in s
  {
    if l[0].tag != t {
      MatchesTail(s, l);
      Listed(s[1..], l[1..], t);
    }
  }

  lemma {:induction false} MatchesTail(s: seq<Tag>, l: seq<Entry>)
    requires MatchesEntries(s, l) && l != []
    ensures MatchesEntries(s[1..], l[1..])
  {
  }

  lemma {:induction false} MatchesRemoved(s: seq<Tag>, l: seq<Entry>, k: nat)
    requires MatchesEntries(s, l) && Distinct(s) && k < |s|
    ensures MatchesEntries(RemovedAt(s, k), Without(l, s[k]))
    decreases k
  {
    if k == 0 {
      assert RemovedAt(s, 0) == s[1..];
    } else {
      MatchesTail(s, l);
      MatchesRemoved(s[1..], l[1..], k - 1);
      assert s[0] != s[k] by { DistinctPairs(s); }
      assert RemovedAt(s, k) == [s[0]] + RemovedAt(s[1..], k - 1);
    }
  }
}
