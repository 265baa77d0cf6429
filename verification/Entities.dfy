/** General entities and the check that keeps them from referring to themselves.  An entity is stored
    under its name with the closing semicolon, and a reference is an ampersand followed by such a name. */
module Entities {

  datatype Entity = Entity(name: string, value: string)

  /** The entities every document starts with. */
  const PREDEFINED: seq<Entity> :=
    [ Entity("lt;", "&#60;"), Entity("gt;", "&#62;"), Entity("quot;", "&#34;"),
      Entity("apos;", "&#39;"), Entity("amp;", "&#38;") ]

  /** The index of the first entity whose name is a prefix of `s`, or the number of entities. */
  function Find(ents: seq<Entity>, s: string): (j: nat)
    ensures j <= |ents| && (j < |ents| ==> ents[j].name <= s)
  {
    FindFrom(ents, s, 0)
  }

  function FindFrom(ents: seq<Entity>, s: string, i: nat): (j: nat)
    requires i <= |ents|
    ensures i <= j <= |ents| && (j < |ents| ==> ents[j].name <= s)
    decreases |ents| - i
  {
    if i == |ents| || ents[i].name <= s then i else FindFrom(ents, s, i + 1)
  }

  lemma {:induction false} FindFromFirst(ents: seq<Entity>, s: string, i: nat, k: nat)
    requires i <= |ents| && i <= k < FindFrom(ents, s, i)
    ensures !(ents[k].name <= s)
    decreases k - i
  {
    if k > i {
      FindFromFirst(ents, s, i + 1, k);
    }
  }

  /** A ranking of the entities with which every reference in `s` is to an entity ranked below `h`. */
  ghost predicate RefsBelow(ents: seq<Entity>, rank: seq<nat>, s: string, h: nat)
    requires |rank| == |ents|
  {
    if s == "" then true
    else
      && (s[0] == '&' && Find(ents, s[1..]) < |ents| ==> rank[Find(ents, s[1..])] < h)
      && RefsBelow(ents, rank, s[1..], h)
  }

  /** Every entity refers to entities of lower rank only. */
  ghost predicate Ranked(ents: seq<Entity>, rank: seq<nat>) {
    && |rank| == |ents|
    && forall i | 0 <= i < |ents| :: RefsBelow(ents, rank, ents[i].value, rank[i])
  }

  ghost predicate Acyclic(ents: seq<Entity>) {
    exists rank: seq<nat> :: Ranked(ents, rank)
  }

  // ------------------------------------------------------------------------- the circularity check

  /** What the check computes: no reference in `s`, followed through the entities, leads to `name`. */
  ghost predicate EntOk(name: string, s: string, ents: seq<Entity>, rank: seq<nat>, h: nat)
    requires Ranked(ents, rank) && RefsBelow(ents, rank, s, h)
    decreases h, |s|
  {
    if s == "" then true
    else if s[0] != '&' then EntOk(name, s[1..], ents, rank, h)
    else
      && !(name <= s[1..])
      && (var j := Find(ents, s[1..]);
          j < |ents| ==> EntOk(name, ents[j].value, ents, rank, rank[j]))
      && EntOk(name, s[1..], ents, rank, h)
  }

  method CheckEntity(name: string, s: string, ents: seq<Entity>, ghost rank: seq<nat>, ghost h: nat) returns (ok: bool)
    requires Ranked(ents, rank) && RefsBelow(ents, rank, s, h)
    ensures ok == EntOk(name, s, ents, rank, h)
    decreases h
  {
    hide EntOk, RefsBelow, Find;
    var p := 0;
    assert s[0..] == s;
    while true
      invariant 0 <= p <= |s| && RefsBelow(ents, rank, s[p..], h)
      invariant EntOk(name, s, ents, rank, h) == EntOk(name, s[p..], ents, rank, h)
      decreases |s| - p
    {
      while p < |s| && s[p] != '&'
        invariant 0 <= p <= |s| && RefsBelow(ents, rank, s[p..], h)
        invariant EntOk(name, s, ents, rank, h) == EntOk(name, s[p..], ents, rank, h)
      {
        OkIs(name, s[p..], ents, rank, h);
        assert s[p..][1..] == s[p + 1..];
        p := p + 1;
      }
      OkIs(name, s[p..], ents, rank, h);
      if p == |s| {
        return true;
      }
      assert s[p..][1..] == s[p + 1..];
      if name <= s[p + 1..] {
        return false;
      }
      var j := Find(ents, s[p + 1..]);
      if j < |ents| {
        var inner := CheckEntity(name, ents[j].value, ents, rank, rank[j]);
        if !inner {
          return false;
        }
      }
      p := p + 1;
    }
  }

  lemma {:induction false} OkIs(name: string, s: string, ents: seq<Entity>, rank: seq<nat>, h: nat)
    requires Ranked(ents, rank) && RefsBelow(ents, rank, s, h)
    ensures s == "" ==> EntOk(name, s, ents, rank, h)
    ensures s != "" ==> RefsBelow(ents, rank, s[1..], h)
    ensures s != "" && s[0] != '&' ==> EntOk(name, s, ents, rank, h) == EntOk(name, s[1..], ents, rank, h)
    ensures s != "" && s[0] == '&' && Find(ents, s[1..]) < |ents| ==>
              var j := Find(ents, s[1..]);
              && rank[j] < h && RefsBelow(ents, rank, ents[j].value, rank[j])
              && EntOk(name, s, ents, rank, h)
                 == (!(name <= s[1..]) && EntOk(name, ents[j].value, ents, rank, rank[j])
                     && EntOk(name, s[1..], ents, rank, h))
    ensures s != "" && s[0] == '&' && Find(ents, s[1..]) == |ents| ==>
              EntOk(name, s, ents, rank, h) == (!(name <= s[1..]) && EntOk(name, s[1..], ents, rank, h))
  {
    hide Find;
  }

  // ------------------------------------------------------------------------ what a ranking rules out

  lemma {:induction false} RefsBelowAt(ents: seq<Entity>, rank: seq<nat>, s: string, h: nat, p: nat)
    requires |rank| == |ents| && RefsBelow(ents, rank, s, h)
    requires p < |s| && s[p] == '&' && Find(ents, s[p + 1..]) < |ents|
    ensures rank[Find(ents, s[p + 1..])] < h
  {
    if p > 0 {
      assert s[1..][p..] == s[p + 1..];
      RefsBelowAt(ents, rank, s[1..], h, p - 1);
    }
  }

  /** Entity `i` refers to entity `j`. */
  ghost predicate RefersTo(ents: seq<Entity>, i: nat, j: nat)
    requires i < |ents|
  {
    exists p: nat :: p < |ents[i].value| && ents[i].value[p] == '&' && Find(ents, ents[i].value[p + 1..]) == j
  }

  /** A chain of references through the entities listed in `path`. */
  ghost predicate IsPath(ents: seq<Entity>, path: seq<nat>) {
    && (forall k | 0 <= k < |path| :: path[k] < |ents|)
    && (forall k | 0 <= k < |path| - 1 :: RefersTo(ents, path[k], path[k + 1]))
  }

  /** No entity refers to itself, directly or through others. */
  lemma {:induction false} NoRecursion(ents: seq<Entity>, path: seq<nat>)
    requires Acyclic(ents) && IsPath(ents, path) && |path| > 1
    ensures path[0] != path[|path| - 1]
  {
    var rank :| Ranked(ents, rank);
    RankFalls(ents, rank, path);
  }

  lemma {:induction false} RankFalls(ents: seq<Entity>, rank: seq<nat>, path: seq<nat>)
    requires Ranked(ents, rank) && IsPath(ents, path) && |path| > 1
    ensures rank[path[|path| - 1]] < rank[path[0]]
  {
    var i := path[0];
    assert RefersTo(ents, path[0], path[1]);
    var p: nat :| p < |ents[i].value| && ents[i].value[p] == '&' && Find(ents, ents[i].value[p + 1..]) == path[1];
    RefsBelowAt(ents, rank, ents[i].value, rank[i], p);
    if |path| > 2 {
      var rest := path[1..];
      assert forall k | 0 <= k < |rest| - 1 :: RefersTo(ents, path[k + 1], path[k + 2]) && rest[k] == path[k + 1];
      RankFalls(ents, rank, rest);
    }
  }

  // ----------------------------------------------------------------------------- declaring entities

  /** A number above every rank. */
  ghost function Bound(rank: seq<nat>): (b: nat)
    ensures forall i | 0 <= i < |rank| :: rank[i] < b
  {
    if rank == [] then 0
    else
      var b := Bound(rank[1..]);
      assert forall i | 0 < i < |rank| :: rank[i] == rank[1..][i - 1];
      if rank[0] < b then b else rank[0] + 1
  }

  lemma {:induction false} BelowBound(ents: seq<Entity>, rank: seq<nat>, s: string)
    requires |rank| == |ents|
    ensures RefsBelow(ents, rank, s, Bound(rank))
  {
    if s != "" {
      BelowBound(ents, rank, s[1..]);
    }
  }

  lemma {:induction false} FindAppend(ents: seq<Entity>, e: Entity, s: string, i: nat := 0)
    requires i <= |ents|
    ensures FindFrom(ents + [e], s, i) == if FindFrom(ents, s, i) < |ents| then FindFrom(ents, s, i)
                                          else if e.name <= s then |ents| else |ents| + 1
    decreases |ents| - i
  {
    if i < |ents| {
      assert (ents + [e])[i] == ents[i];
      FindAppend(ents, e, s, i + 1);
    }
  }

  /** The ranking after an admitted declaration: entities that lead to the new one move above it. */
  ghost function NewRank(name: string, ents: seq<Entity>, rank: seq<nat>): (r: seq<nat>)
    requires Ranked(ents, rank)
    ensures |r| == |ents| + 1 && r[|ents|] == Bound(rank)
  {
    seq(|ents|, i requires 0 <= i < |ents| =>
      if EntOk(name, ents[i].value, ents, rank, rank[i]) then rank[i] else Bound(rank) + 1 + rank[i])
    + [Bound(rank)]
  }

  lemma {:induction false} OkStaysBelow(e: Entity, s: string, ents: seq<Entity>, rank: seq<nat>, h: nat)
    requires Ranked(ents, rank) && RefsBelow(ents, rank, s, h) && EntOk(e.name, s, ents, rank, h)
    ensures RefsBelow(ents + [e], NewRank(e.name, ents, rank), s, h)
  {
    if s != "" {
      FindAppend(ents, e, s[1..]);
      OkStaysBelow(e, s[1..], ents, rank, h);
    }
  }

  lemma {:induction false} AnyStaysBelow(e: Entity, s: string, ents: seq<Entity>, rank: seq<nat>, h: nat)
    requires Ranked(ents, rank) && RefsBelow(ents, rank, s, h)
    ensures RefsBelow(ents + [e], NewRank(e.name, ents, rank), s, Bound(rank) + 1 + h)
  {
    if s != "" {
      FindAppend(ents, e, s[1..]);
      AnyStaysBelow(e, s[1..], ents, rank, h);
    }
  }

  /** An admitted declaration keeps the entities free of recursion. */
  lemma {:induction false} AdmittedKeepsRanked(e: Entity, ents: seq<Entity>, rank: seq<nat>)
    requires Ranked(ents, rank) && RefsBelow(ents, rank, e.value, Bound(rank))
    requires EntOk(e.name, e.value, ents, rank, Bound(rank))
    ensures Ranked(ents + [e], NewRank(e.name, ents, rank))
  {
    var ents2, rank2 := ents + [e], NewRank(e.name, ents, rank);
    forall i | 0 <= i < |ents2|
      ensures RefsBelow(ents2, rank2, ents2[i].value, rank2[i])
    {
      if i == |ents| {
        OkStaysBelow(e, e.value, ents, rank, Bound(rank));
      } else if EntOk(e.name, ents[i].value, ents, rank, rank[i]) {
        OkStaysBelow(e, ents[i].value, ents, rank, rank[i]);
      } else {
        AnyStaysBelow(e, ents[i].value, ents, rank, rank[i]);
      }
    }
  }

  /** Neither name is a prefix of the other, as with distinct names that end in their only semicolon. */
  ghost predicate Fresh(name: string, ents: seq<Entity>) {
    forall i | 0 <= i < |ents| :: !(ents[i].name <= name) && !(name <= ents[i].name)
  }

  /** A text the check objects to leads to the new name under any ranking. */
  lemma {:induction false} RejectedLeadsBack(e: Entity, s: string, ents: seq<Entity>, rank: seq<nat>, h: nat,
      rank2: seq<nat>, b: nat)
    requires Ranked(ents, rank) && RefsBelow(ents, rank, s, h) && !EntOk(e.name, s, ents, rank, h)
    requires Fresh(e.name, ents)
    requires Ranked(ents + [e], rank2) && RefsBelow(ents + [e], rank2, s, b)
    ensures rank2[|ents|] < b
    decreases h, |s|
  {
    if s[0] != '&' {
      RejectedLeadsBack(e, s[1..], ents, rank, h, rank2, b);
    } else {
      var j := Find(ents, s[1..]);
      FindAppend(ents, e, s[1..]);
      if e.name <= s[1..] {
        PrefixesCompare(e.name, s[1..], ents);
      } else if j < |ents| && !EntOk(e.name, ents[j].value, ents, rank, rank[j]) {
        assert (ents + [e])[j] == ents[j];
        RejectedLeadsBack(e, ents[j].value, ents, rank, rank[j], rank2, rank2[j]);
      } else {
        RejectedLeadsBack(e, s[1..], ents, rank, h, rank2, b);
      }
    }
  }

  lemma {:induction false} PrefixesCompare(name: string, s: string, ents: seq<Entity>)
    requires Fresh(name, ents) && name <= s
    ensures Find(ents, s) == |ents|
  {
    var j := Find(ents, s);
    if j < |ents| {
      Comparable(ents[j].name, name, s);
    }
  }

  lemma {:induction false} Comparable(a: string, b: string, s: string)
    requires a <= s && b <= s
    ensures a <= b || b <= a
  {
    if |a| <= |b| {
      assert a == s[..|a|] == b[..|a|];
    } else {
      assert b == s[..|b|] == a[..|b|];
    }
  }

  /** The check is exact on new names: it admits an entity if and only if that leaves no recursion. */
  lemma {:induction false} CheckIsExact(e: Entity, ents: seq<Entity>, rank: seq<nat>)
    requires Ranked(ents, rank) && Fresh(e.name, ents)
    ensures RefsBelow(ents, rank, e.value, Bound(rank))
    ensures EntOk(e.name, e.value, ents, rank, Bound(rank)) <==> Acyclic(ents + [e])
  {
    BelowBound(ents, rank, e.value);
    if EntOk(e.name, e.value, ents, rank, Bound(rank)) {
      AdmittedKeepsRanked(e, ents, rank);
    } else if Acyclic(ents + [e]) {
      var rank2 :| Ranked(ents + [e], rank2);
      assert (ents + [e])[|ents|] == e;
      RejectedLeadsBack(e, e.value, ents, rank, Bound(rank), rank2, rank2[|ents|]);
    }
  }

  /** An earlier entity answers every reference to that name. */
  ghost predicate Shadowed(name: string, ents: seq<Entity>) {
    exists i :: 0 <= i < |ents| && ents[i].name <= name
  }

  lemma {:induction false} ShadowFinds(e: Entity, ents: seq<Entity>, s: string)
    requires Shadowed(e.name, ents)
    ensures Find(ents + [e], s) < |ents| <==> Find(ents, s) < |ents|
    ensures Find(ents, s) < |ents| ==> Find(ents + [e], s) == Find(ents, s)
    ensures Find(ents + [e], s) != |ents|
  {
    FindAppend(ents, e, s);
    if e.name <= s && Find(ents, s) == |ents| {
      var i :| 0 <= i < |ents| && ents[i].name <= e.name;
      PrefixOfPrefix(ents[i].name, e.name, s);
      FindFromFirst(ents, s, 0, i);
    }
  }

  lemma {:induction false} PrefixOfPrefix(a: string, b: string, s: string)
    requires a <= b && b <= s
    ensures a <= s
  {
    assert a == b[..|a|] == s[..|a|];
  }

  lemma {:induction false} ShadowStaysBelow(e: Entity, s: string, ents: seq<Entity>, rank: seq<nat>, h: nat)
    requires |rank| == |ents| && Shadowed(e.name, ents) && RefsBelow(ents, rank, s, h)
    ensures RefsBelow(ents + [e], rank + [Bound(rank)], s, h)
  {
    hide Find, Shadowed;
    if s != "" {
      ShadowFinds(e, ents, s[1..]);
      ShadowStaysBelow(e, s[1..], ents, rank, h);
    }
  }

  /** A second declaration of a name can do no harm, whatever its text: no reference leads to it. */
  lemma {:induction false} ShadowedIsAcyclic(e: Entity, ents: seq<Entity>, rank: seq<nat>)
    requires Ranked(ents, rank) && Shadowed(e.name, ents)
    ensures Ranked(ents + [e], rank + [Bound(rank)])
  {
    hide RefsBelow, Shadowed;
    var ents2, rank2 := ents + [e], rank + [Bound(rank)];
    forall i | 0 <= i < |ents2|
      ensures RefsBelow(ents2, rank2, ents2[i].value, rank2[i])
    {
      if i < |ents| {
        ShadowStaysBelow(e, ents[i].value, ents, rank, rank[i]);
      } else {
        BelowBound(ents, rank, e.value);
        ShadowStaysBelow(e, e.value, ents, rank, Bound(rank));
      }
    }
  }

  /** No earlier name goes on behind this one, as with names that end in their only semicolon. */
  ghost predicate Unextended(name: string, ents: seq<Entity>) {
    forall i | 0 <= i < |ents| :: name <= ents[i].name ==> name == ents[i].name
  }

  /** A declaration leaves no recursion if and only if the name was declared before or the check admits
      it; so the check is wrong exactly where it objects to a name that was declared before. */
  lemma {:induction false} CheckAgainstRecursion(e: Entity, ents: seq<Entity>, rank: seq<nat>)
    requires Ranked(ents, rank) && Unextended(e.name, ents)
    ensures RefsBelow(ents, rank, e.value, Bound(rank))
    ensures Acyclic(ents + [e]) <==> Shadowed(e.name, ents) || EntOk(e.name, e.value, ents, rank, Bound(rank))
  {
    BelowBound(ents, rank, e.value);
    if Shadowed(e.name, ents) {
      ShadowedIsAcyclic(e, ents, rank);
    } else {
      CheckIsExact(e, ents, rank);
    }
  }

  /** After `a` stands for `x`, a second declaration of `a` that mentions `&a;` is objected to without need. */
  lemma {:induction false} RedeclarationRejected()
    ensures var ents, e := [Entity("a;", "x")], Entity("a;", "&a;");
            && Ranked(ents, [0]) && RefsBelow(ents, [0], e.value, Bound([0]))
            && !EntOk(e.name, e.value, ents, [0], Bound([0])) && Acyclic(ents + [e])
  {
    var ents, e := [Entity("a;", "x")], Entity("a;", "&a;");
    assert "x"[1..] == "" && Find(ents, "") == 1;
    assert RefsBelow(ents, [0], "x", 0);
    assert e.value[1..] == "a;" && e.name <= e.value[1..];
    assert ents[0].name <= e.name;
    CheckAgainstRecursion(e, ents, [0]);
  }

  /** The check's answer does not depend on the ranking that makes it end. */
  lemma {:induction false} EntOkSame(name: string, s: string, ents: seq<Entity>, rank: seq<nat>, h: nat,
      rank2: seq<nat>, h2: nat)
    requires Ranked(ents, rank) && RefsBelow(ents, rank, s, h)
    requires Ranked(ents, rank2) && RefsBelow(ents, rank2, s, h2)
    ensures EntOk(name, s, ents, rank, h) == EntOk(name, s, ents, rank2, h2)
    decreases h, |s|
  {
    hide Find;
    if s != "" {
      EntOkSame(name, s[1..], ents, rank, h, rank2, h2);
      var j := Find(ents, s[1..]);
      if s[0] == '&' && j < |ents| {
        EntOkSame(name, ents[j].value, ents, rank, rank[j], rank2, rank2[j]);
      }
    }
  }

  /** The check admits the entity. */
  ghost predicate Admits(ents: seq<Entity>, e: Entity) {
    exists rank: seq<nat> :: AdmitsBy(ents, e, rank)
  }

  ghost predicate AdmitsBy(ents: seq<Entity>, e: Entity, rank: seq<nat>) {
    && Ranked(ents, rank) && RefsBelow(ents, rank, e.value, Bound(rank))
    && EntOk(e.name, e.value, ents, rank, Bound(rank))
  }

  lemma {:induction false} AdmitsSame(ents: seq<Entity>, e: Entity, rank: seq<nat>)
    requires Ranked(ents, rank) && RefsBelow(ents, rank, e.value, Bound(rank))
    ensures Admits(ents, e) <==> EntOk(e.name, e.value, ents, rank, Bound(rank))
  {
    hide EntOk, RefsBelow, Ranked, Bound;
    if rank2: seq<nat> :| AdmitsBy(ents, e, rank2) {
      EntOkSame(e.name, e.value, ents, rank, Bound(rank), rank2, Bound(rank2));
    }
    if EntOk(e.name, e.value, ents, rank, Bound(rank)) {
      assert AdmitsBy(ents, e, rank);
    }
  }

  /** Reads a run of entity declarations, each checked against those before it.  The first that the
      check objects to ends the run; that one would have been recursive unless its name was declared
      before. */
  method Declare(start: seq<Entity>, decls: seq<Entity>) returns (ents: seq<Entity>, ok: bool)
    requires Acyclic(start)
    ensures Acyclic(ents)
    ensures |start| <= |ents| <= |start| + |decls| && ents == start + decls[..|ents| - |start|]
    ensures ok <==> |ents| == |start| + |decls|
    ensures forall k | 0 <= k < |ents| - |start| :: Admits(start + decls[..k], decls[k])
    ensures !ok ==> !Admits(ents, decls[|ents| - |start|])
    ensures !ok && Unextended(decls[|ents| - |start|].name, ents) ==>
              (Acyclic(ents + [decls[|ents| - |start|]]) <==> Shadowed(decls[|ents| - |start|].name, ents))
  {
    hide EntOk, RefsBelow, Ranked, Shadowed, Unextended, Admits;
    ents, ok := start, true;
    ghost var rank :| Ranked(ents, rank);
    var k := 0;
    while k < |decls|
      invariant 0 <= k <= |decls| && ents == start + decls[..k]
      invariant Ranked(ents, rank)
      invariant forall i | 0 <= i < k :: Admits(start + decls[..i], decls[i])
    {
      RankLength(ents, rank);
      BelowBound(ents, rank, decls[k].value);
      ok := CheckEntity(decls[k].name, decls[k].value, ents, rank, Bound(rank));
      AdmitsSame(ents, decls[k], rank);
      if !ok {
        if Unextended(decls[k].name, ents) {
          CheckAgainstRecursion(decls[k], ents, rank);
        }
        return;
      }
      AdmittedKeepsRanked(decls[k], ents, rank);
      rank := NewRank(decls[k].name, ents, rank);
      ents := ents + [decls[k]];
      k := k + 1;
    }
  }

  lemma {:induction false} RankLength(ents: seq<Entity>, rank: seq<nat>)
    requires Ranked(ents, rank)
    ensures |rank| == |ents|
  {
  }

  lemma {:induction false} PredefinedRanked()
    ensures Ranked(PREDEFINED, [0, 0, 0, 0, 0])
  {
    hide RefsBelow;
    forall i | 0 <= i < |PREDEFINED|
      ensures RefsBelow(PREDEFINED, [0, 0, 0, 0, 0], PREDEFINED[i].value, 0)
    {
      PredefinedText(i);
      NoNamedRefs(PREDEFINED[i].value);
    }
  }

  /** The text of a predefined entity is a character reference. */
  lemma {:induction false} PredefinedText(i: nat)
    requires i < |PREDEFINED|
    ensures var s := PREDEFINED[i].value;
            |s| == 5 && s[0] == '&' && s[1] == '#' && s[2] != '&' && s[3] != '&' && s[4] == ';'
    ensures PREDEFINED[i].name != "" && PREDEFINED[i].name[0] != '#'
  {
  }

  /** A text of the form `&#..;` refers to no predefined entity. */
  lemma {:induction false} NoNamedRefs(s: string)
    requires |s| == 5 && s[0] == '&' && s[1] == '#' && s[2] != '&' && s[3] != '&' && s[4] == ';'
    ensures RefsBelow(PREDEFINED, [0, 0, 0, 0, 0], s, 0)
  {
    NoHashName(s[1..], 0);
    NoRefs(s[1..]);
  }

  lemma {:induction false} NoHashName(s: string, i: nat)
    requires s != "" && s[0] == '#' && i <= |PREDEFINED|
    ensures FindFrom(PREDEFINED, s, i) == |PREDEFINED|
    decreases |PREDEFINED| - i
  {
    if i < |PREDEFINED| {
      PredefinedText(i);
      NoHashName(s, i + 1);
    }
  }

  lemma {:induction false} NoRefs(s: string)
    requires forall i | 0 <= i < |s| :: s[i] != '&'
    ensures RefsBelow(PREDEFINED, [0, 0, 0, 0, 0], s, 0)
  {
    if s != "" {
      NoRefs(s[1..]);
    }
  }
}
