/**
 * Relation derivation (`extract_relations`): association edges from object properties,
 * inheritance and equivalence edges from the class table, then a pass that drops edges
 * with an "Unknown" end and keeps one equivalence edge per unordered pair of names.
 */
module Relations {
  import opened Common
  import opened Names
  import opened Annotations
  import opened Classes
  import opened Properties

  /** The PlantUML arrow of an edge: `<|--`, `-->` or `..`. */
  datatype Arrow = Inherits | Associates | Dotted

  /** A `{from, to, name, type}` edge. */
  datatype Relation = Relation(from: string, to: string, name: string, arrow: Arrow)

  const SubClassOfLabel: string := "subClassOf"
  const EquivalentToLabel: string := "equivalentTo"

  // ---------------------------------------------------------------------------
  // Candidate edges

  /** The edge of an object property with a domain and a range, unless the domain is "Unknown". */
  function ObjectRelation(p: Property): (r: seq<Relation>)
    ensures |r| <= 1
    ensures r != [] <==> p.kind == ObjectProperty && Truthy(p.domain) && Truthy(p.range) && p.domain.value != Unknown
    ensures r != [] ==> r[0] == Relation(p.domain.value, p.range.value, p.name, Associates)
  {
    if p.kind == ObjectProperty && Truthy(p.domain) && Truthy(p.range) && p.domain.value != Unknown
    then [Relation(p.domain.value, p.range.value, p.name, Associates)]
    else []
  }

  function ObjectRelationsOf(ps: seq<Property>): seq<Relation>
  {
    if ps == [] then [] else ObjectRelationsOf(ps[..|ps| - 1]) + ObjectRelation(ps[|ps| - 1])
  }

  /** A superclass or equivalent name that makes an edge: non-empty and not "Unknown". */
  predicate Linkable(x: string)
  {
    x != "" && x != Unknown
  }

  /** The inheritance edges of a class: from each linkable superclass to the class. */
  function SuperEdges(name: string, sups: seq<string>): seq<Relation>
  {
    if sups == [] then []
    else
      var sup := sups[|sups| - 1];
      SuperEdges(name, sups[..|sups| - 1]) + (if Linkable(sup) then [Relation(sup, name, SubClassOfLabel, Inherits)] else [])
  }

  /** The equivalence edges of a class: from the class to each linkable equivalent name. */
  function EquivalenceEdges(name: string, eqs: seq<string>): seq<Relation>
  {
    if eqs == [] then []
    else
      var eq := eqs[|eqs| - 1];
      EquivalenceEdges(name, eqs[..|eqs| - 1]) + (if Linkable(eq) then [Relation(name, eq, EquivalentToLabel, Dotted)] else [])
  }

  function ClassEdges(c: ClassEntity): seq<Relation>
  {
    SuperEdges(c.name, c.subClassOf) + EquivalenceEdges(c.name, c.equivalentTo)
  }

  function ClassRelationsOf(cs: Table): seq<Relation>
  {
    if cs == [] then [] else ClassRelationsOf(cs[..|cs| - 1]) + ClassEdges(cs[|cs| - 1])
  }

  /** All candidate edges: object-property edges first, then each class's edges. */
  function CandidateRelations(cs: Table, ps: seq<Property>): seq<Relation>
  {
    ObjectRelationsOf(ps) + ClassRelationsOf(cs)
  }

  // ---------------------------------------------------------------------------
  // Filtering and deduplication

  /** Python's `tuple(sorted([a, b]))` compares strings code point by code point. */
  predicate LexLe(a: string, b: string)
  {
    a == [] || (b != [] && (a[0] < b[0] || (a[0] == b[0] && LexLe(a[1..], b[1..]))))
  }

  function PairKey(a: string, b: string): (string, string)
  {
    if LexLe(a, b) then (a, b) else (b, a)
  }

  predicate Resolved(r: Relation)
  {
    r.from != Unknown && r.to != Unknown
  }

  /** An edge the deduplication treats as an equivalence: it goes by the label. */
  predicate IsEquivalence(r: Relation)
  {
    r.name == EquivalentToLabel
  }

  function KeyOf(r: Relation): (string, string)
  {
    PairKey(r.from, r.to)
  }

  /**
   * Whether edge `i` survives: both ends resolved and, for an equivalence, no earlier
   * equivalence with the same sorted pair of names.
   */
  predicate Kept(rels: seq<Relation>, i: nat)
    requires i < |rels|
  {
    Resolved(rels[i]) &&
    (IsEquivalence(rels[i]) ==> forall j :: 0 <= j < i && IsEquivalence(rels[j]) ==> KeyOf(rels[j]) != KeyOf(rels[i]))
  }

  /** The surviving edges among the first `m`, in order. */
  function UniqueUpTo(rels: seq<Relation>, m: nat): seq<Relation>
    requires m <= |rels|
  {
    if m == 0 then [] else UniqueUpTo(rels, m - 1) + (if Kept(rels, m - 1) then [rels[m - 1]] else [])
  }

  function UniqueRelations(rels: seq<Relation>): seq<Relation>
  {
    UniqueUpTo(rels, |rels|)
  }

  /** The `equiv_pairs` set after the first `m` edges. */
  function SeenPairs(rels: seq<Relation>, m: nat): set<(string, string)>
    requires m <= |rels|
  {
    if m == 0 then {}
    else SeenPairs(rels, m - 1) + (if IsEquivalence(rels[m - 1]) && Resolved(rels[m - 1]) then {KeyOf(rels[m - 1])} else {})
  }

  /** The relations of the diagram. */
  function RelationList(cs: Table, ps: seq<Property>): seq<Relation>
  {
    UniqueRelations(CandidateRelations(cs, ps))
  }

  // ---------------------------------------------------------------------------
  // Sorted pairs

  lemma {:induction false} LexTotal(a: string, b: string)
    ensures LexLe(a, b) || LexLe(b, a)
  {
    if a != [] && b != [] && a[0] == b[0] {
      LexTotal(a[1..], b[1..]);
    }
  }

  lemma {:induction false} LexAntisymmetric(a: string, b: string)
    requires LexLe(a, b) && LexLe(b, a)
    ensures a == b
  {
    if a != [] {
      LexAntisymmetric(a[1..], b[1..]);
      assert a == [a[0]] + a[1..] && b == [b[0]] + b[1..];
    }
  }

  /** The sorted pair is the same whichever way round the names come. */
  lemma PairKeySymmetric(a: string, b: string)
    ensures PairKey(a, b) == PairKey(b, a)
  {
    LexTotal(a, b);
    if LexLe(a, b) && LexLe(b, a) {
      LexAntisymmetric(a, b);
    }
  }

  /** Two sorted pairs agree exactly when they are made of the same two names, in either order. */
  lemma PairKeyIff(a: string, b: string, c: string, d: string)
    ensures PairKey(a, b) == PairKey(c, d) <==> (a == c && b == d) || (a == d && b == c)
  {
    PairKeySymmetric(c, d);
  }

  /** Equal keys mean equally resolved edges. */
  lemma KeyResolved(r: Relation, s: Relation)
    requires KeyOf(r) == KeyOf(s) && Resolved(s)
    ensures Resolved(r)
  {
    PairKeyIff(r.from, r.to, s.from, s.to);
  }

  // ---------------------------------------------------------------------------
  // The algorithm

  lemma {:induction false} SeenPairsIff(rels: seq<Relation>, m: nat, key: (string, string))
    requires m <= |rels|
    ensures key in SeenPairs(rels, m) <==> exists j :: 0 <= j < m && IsEquivalence(rels[j]) && Resolved(rels[j]) && KeyOf(rels[j]) == key
  {
    if m > 0 {
      SeenPairsIff(rels, m - 1, key);
    }
  }

  /** The test the loop makes on edge `i` decides `Kept`. */
  lemma DedupStep(rels: seq<Relation>, i: nat)
    requires i < |rels|
    ensures Kept(rels, i) <==>
      if IsEquivalence(rels[i]) then KeyOf(rels[i]) !in SeenPairs(rels, i) && KeyOf(rels[i]).0 != Unknown && KeyOf(rels[i]).1 != Unknown
      else Resolved(rels[i])
  {
    var r := rels[i];
    SeenPairsIff(rels, i, KeyOf(r));
    if IsEquivalence(r) && Resolved(r) && !Kept(rels, i) {
      var j :| 0 <= j < i && IsEquivalence(rels[j]) && KeyOf(rels[j]) == KeyOf(r);
      KeyResolved(rels[j], r);
    }
  }

  /** The deduplication pass, with its set of equivalence pairs already seen. */
  method DedupRelations(rels: seq<Relation>) returns (unique: seq<Relation>)
    ensures unique == UniqueRelations(rels)
  {
    unique := [];
    var seen: set<(string, string)> := {};
    for i := 0 to |rels|
      invariant unique == UniqueUpTo(rels, i)
      invariant seen == SeenPairs(rels, i)
    {
      var rel := rels[i];
      DedupStep(rels, i);
      if rel.name == EquivalentToLabel {
        var pair := PairKey(rel.from, rel.to);
        if pair !in seen && pair.0 != Unknown && pair.1 != Unknown {
          seen := seen + {pair};
          unique := unique + [rel];
        } else if Resolved(rel) {
          assert pair in seen;
          assert seen + {pair} == seen;
        }
      } else if rel.from != Unknown && rel.to != Unknown {
        unique := unique + [rel];
      }
    }
  }

  method CollectObjectRelations(ps: seq<Property>) returns (rels: seq<Relation>)
    ensures rels == ObjectRelationsOf(ps)
  {
    rels := [];
    for i := 0 to |ps|
      invariant rels == ObjectRelationsOf(ps[..i])
    {
      assert ps[..i + 1][..i] == ps[..i];
      var p := ps[i];
      if p.kind == ObjectProperty && Truthy(p.domain) && Truthy(p.range) {
        var domain := p.domain.value;
        if domain != "" && domain != Unknown {
          rels := rels + [Relation(domain, p.range.value, p.name, Associates)];
        }
      }
    }
    assert ps[..|ps|] == ps;
  }

  method CollectSuperEdges(name: string, sups: seq<string>) returns (rels: seq<Relation>)
    ensures rels == SuperEdges(name, sups)
  {
    rels := [];
    for i := 0 to |sups|
      invariant rels == SuperEdges(name, sups[..i])
    {
      assert sups[..i + 1][..i] == sups[..i];
      var sup := sups[i];
      if sup != "" && sup != Unknown {
        rels := rels + [Relation(sup, name, SubClassOfLabel, Inherits)];
      }
    }
    assert sups[..|sups|] == sups;
  }

  method CollectEquivalenceEdges(name: string, eqs: seq<string>) returns (rels: seq<Relation>)
    ensures rels == EquivalenceEdges(name, eqs)
  {
    rels := [];
    for i := 0 to |eqs|
      invariant rels == EquivalenceEdges(name, eqs[..i])
    {
      assert eqs[..i + 1][..i] == eqs[..i];
      var eq := eqs[i];
      if eq != "" && eq != Unknown {
        rels := rels + [Relation(name, eq, EquivalentToLabel, Dotted)];
      }
    }
    assert eqs[..|eqs|] == eqs;
  }

  method CollectClassRelations(cs: Table) returns (rels: seq<Relation>)
    ensures rels == ClassRelationsOf(cs)
  {
    rels := [];
    for i := 0 to |cs|
      invariant rels == ClassRelationsOf(cs[..i])
    {
      assert cs[..i + 1][..i] == cs[..i];
      var supers := CollectSuperEdges(cs[i].name, cs[i].subClassOf);
      var equivalents := CollectEquivalenceEdges(cs[i].name, cs[i].equivalentTo);
      rels := rels + (supers + equivalents);
    }
    assert cs[..|cs|] == cs;
  }

  method ExtractRelations(cs: Table, ps: seq<Property>) returns (relations: seq<Relation>)
    ensures relations == RelationList(cs, ps)
  {
    var objects := CollectObjectRelations(ps);
    var classEdges := CollectClassRelations(cs);
    relations := DedupRelations(objects + classEdges);
  }

  // ---------------------------------------------------------------------------
  // What the deduplication keeps

  /** Two edges join the same two names, whichever way round. */
  predicate SamePair(r: Relation, s: Relation)
  {
    (r.from == s.from && r.to == s.to) || (r.from == s.to && r.to == s.from)
  }

  /** The positions of the surviving edges among the first `m`. */
  function KeptIndices(rels: seq<Relation>, m: nat): seq<nat>
    requires m <= |rels|
  {
    if m == 0 then [] else KeptIndices(rels, m - 1) + (if Kept(rels, m - 1) then [m - 1] else [])
  }

  /**
   * The result is the edges that survive, in their input order: the k-th result is the
   * edge at the k-th surviving position, positions increase, and every surviving
   * position is among them.
   */
  lemma {:induction false} UniqueIndexed(rels: seq<Relation>, m: nat)
    requires m <= |rels|
    ensures var u := UniqueUpTo(rels, m); var idx := KeptIndices(rels, m);
      |u| == |idx| &&
      (forall k :: 0 <= k < |idx| ==> idx[k] < m && Kept(rels, idx[k]) && u[k] == rels[idx[k]]) &&
      (forall a, b :: 0 <= a < b < |idx| ==> idx[a] < idx[b]) &&
      (forall i :: 0 <= i < m && Kept(rels, i) ==> i in idx)
  {
    if m > 0 {
      UniqueIndexed(rels, m - 1);
    }
  }

  /** No surviving edge has "Unknown" at either end. */
  lemma NoUnknownEndpoints(rels: seq<Relation>)
    ensures forall k :: 0 <= k < |UniqueRelations(rels)| ==>
      UniqueRelations(rels)[k].from != Unknown && UniqueRelations(rels)[k].to != Unknown
  {
    UniqueIndexed(rels, |rels|);
  }

  /** Every surviving edge is an input edge. */
  lemma UniqueFromInput(rels: seq<Relation>, r: Relation)
    requires r in UniqueRelations(rels)
    ensures r in rels
  {
    UniqueIndexed(rels, |rels|);
  }

  /** No two surviving equivalence edges join the same two names. */
  lemma EquivalenceAtMostOnce(rels: seq<Relation>)
    ensures var u := UniqueRelations(rels);
      forall a, b :: 0 <= a < b < |u| && IsEquivalence(u[a]) && IsEquivalence(u[b]) ==> !SamePair(u[a], u[b])
  {
    var u := UniqueRelations(rels);
    var idx := KeptIndices(rels, |rels|);
    UniqueIndexed(rels, |rels|);
    forall a, b | 0 <= a < b < |u| && IsEquivalence(u[a]) && IsEquivalence(u[b])
      ensures !SamePair(u[a], u[b])
    {
      assert idx[a] < idx[b];
      assert KeyOf(rels[idx[a]]) != KeyOf(rels[idx[b]]);
      PairKeyIff(u[a].from, u[a].to, u[b].from, u[b].to);
    }
  }

  /** A surviving equivalence edge is the first equivalence edge of the input with its pair of names. */
  lemma EquivalenceFirstKept(rels: seq<Relation>, i: nat)
    requires i < |rels| && IsEquivalence(rels[i]) && Resolved(rels[i])
    requires forall j :: 0 <= j < i && IsEquivalence(rels[j]) ==> !SamePair(rels[j], rels[i])
    ensures rels[i] in UniqueRelations(rels)
  {
    forall j | 0 <= j < i && IsEquivalence(rels[j])
      ensures KeyOf(rels[j]) != KeyOf(rels[i])
    {
      PairKeyIff(rels[j].from, rels[j].to, rels[i].from, rels[i].to);
    }
    var idx := KeptIndices(rels, |rels|);
    UniqueIndexed(rels, |rels|);
    assert Kept(rels, i);
    assert i in idx;
    var k :| 0 <= k < |idx| && idx[k] == i;
  }

  /** Every resolved equivalence edge of the input has a surviving equivalence edge with the same pair of names. */
  lemma {:induction false} EquivalenceRepresented(rels: seq<Relation>, i: nat)
    requires i < |rels| && IsEquivalence(rels[i]) && Resolved(rels[i])
    ensures exists r :: r in UniqueRelations(rels) && IsEquivalence(r) && SamePair(r, rels[i])
    decreases i
  {
    if Kept(rels, i) {
      var idx := KeptIndices(rels, |rels|);
      UniqueIndexed(rels, |rels|);
      assert i in idx;
      var k :| 0 <= k < |idx| && idx[k] == i;
      assert UniqueRelations(rels)[k] == rels[i];
    } else {
      var j :| 0 <= j < i && IsEquivalence(rels[j]) && KeyOf(rels[j]) == KeyOf(rels[i]);
      KeyResolved(rels[j], rels[i]);
      PairKeyIff(rels[j].from, rels[j].to, rels[i].from, rels[i].to);
      EquivalenceRepresented(rels, j);
    }
  }

  /** An edge that is not an equivalence survives exactly when both its ends are resolved. */
  lemma OtherEdgeKept(rels: seq<Relation>, i: nat)
    requires i < |rels| && !IsEquivalence(rels[i])
    ensures rels[i] in UniqueRelations(rels) <==> Resolved(rels[i])
  {
    var idx := KeptIndices(rels, |rels|);
    UniqueIndexed(rels, |rels|);
    if Resolved(rels[i]) {
      assert Kept(rels, i);
      assert i in idx;
      var k :| 0 <= k < |idx| && idx[k] == i;
      assert UniqueRelations(rels)[k] == rels[i];
    }
  }

  // ---------------------------------------------------------------------------
  // Where the candidate edges come from

  lemma {:induction false} ObjectRelationsIff(ps: seq<Property>, r: Relation)
    ensures r in ObjectRelationsOf(ps) <==> exists i :: 0 <= i < |ps| && ObjectRelation(ps[i]) == [r]
  {
    if ps != [] {
      var n := |ps| - 1;
      ObjectRelationsIff(ps[..n], r);
      if exists i :: 0 <= i < |ps| && ObjectRelation(ps[i]) == [r] {
        var i :| 0 <= i < |ps| && ObjectRelation(ps[i]) == [r];
        if i < n {
          assert ps[..n][i] == ps[i];
        }
      }
      if r in ObjectRelationsOf(ps) && r !in ObjectRelationsOf(ps[..n]) {
        assert ObjectRelation(ps[n]) == [r];
      }
    }
  }

  /** The inheritance edges of a class run from each linkable superclass to the class. */
  lemma {:induction false} SuperEdgesIff(name: string, sups: seq<string>, r: Relation)
    ensures r in SuperEdges(name, sups) <==>
      exists k :: 0 <= k < |sups| && Linkable(sups[k]) && r == Relation(sups[k], name, SubClassOfLabel, Inherits)
  {
    if sups != [] {
      var n := |sups| - 1;
      SuperEdgesIff(name, sups[..n], r);
      if exists k :: 0 <= k < |sups| && Linkable(sups[k]) && r == Relation(sups[k], name, SubClassOfLabel, Inherits) {
        var k :| 0 <= k < |sups| && Linkable(sups[k]) && r == Relation(sups[k], name, SubClassOfLabel, Inherits);
        if k < n {
          assert sups[..n][k] == sups[k];
        }
      }
    }
  }

  /** The equivalence edges of a class run from the class to each linkable equivalent name. */
  lemma {:induction false} EquivalenceEdgesIff(name: string, eqs: seq<string>, r: Relation)
    ensures r in EquivalenceEdges(name, eqs) <==>
      exists k :: 0 <= k < |eqs| && Linkable(eqs[k]) && r == Relation(name, eqs[k], EquivalentToLabel, Dotted)
  {
    if eqs != [] {
      var n := |eqs| - 1;
      EquivalenceEdgesIff(name, eqs[..n], r);
      if exists k :: 0 <= k < |eqs| && Linkable(eqs[k]) && r == Relation(name, eqs[k], EquivalentToLabel, Dotted) {
        var k :| 0 <= k < |eqs| && Linkable(eqs[k]) && r == Relation(name, eqs[k], EquivalentToLabel, Dotted);
        if k < n {
          assert eqs[..n][k] == eqs[k];
        }
      }
    }
  }

  lemma {:induction false} ClassRelationsIff(cs: Table, r: Relation)
    ensures r in ClassRelationsOf(cs) <==> exists i :: 0 <= i < |cs| && r in ClassEdges(cs[i])
  {
    if cs != [] {
      var n := |cs| - 1;
      assert ClassRelationsOf(cs) == ClassRelationsOf(cs[..n]) + ClassEdges(cs[n]);
      ClassRelationsIff(cs[..n], r);
      if exists i :: 0 <= i < |cs| && r in ClassEdges(cs[i]) {
        var i :| 0 <= i < |cs| && r in ClassEdges(cs[i]);
        if i < n {
          assert cs[..n][i] == cs[i];
        }
      }
    }
  }

  /** Every inheritance edge of the diagram runs from a superclass of some class to that class. */
  lemma InheritanceSuperToSub(cs: Table, ps: seq<Property>, r: Relation)
    requires r in RelationList(cs, ps) && r.arrow == Inherits
    ensures exists i, k :: (0 <= i < |cs| && 0 <= k < |cs[i].subClassOf| &&
      r == Relation(cs[i].subClassOf[k], cs[i].name, SubClassOfLabel, Inherits))
  {
    var rels := CandidateRelations(cs, ps);
    UniqueFromInput(rels, r);
    ObjectRelationsIff(ps, r);
    assert r !in ObjectRelationsOf(ps);
    ClassRelationsIff(cs, r);
    var i :| 0 <= i < |cs| && r in ClassEdges(cs[i]);
    EquivalenceEdgesIff(cs[i].name, cs[i].equivalentTo, r);
    SuperEdgesIff(cs[i].name, cs[i].subClassOf, r);
  }

  /** Each linkable superclass of a class with a resolved name gives an inheritance edge of the diagram. */
  lemma SuperclassEdgeShown(cs: Table, ps: seq<Property>, i: nat, k: nat)
    requires i < |cs| && k < |cs[i].subClassOf| && Linkable(cs[i].subClassOf[k]) && cs[i].name != Unknown
    ensures Relation(cs[i].subClassOf[k], cs[i].name, SubClassOfLabel, Inherits) in RelationList(cs, ps)
  {
    var r := Relation(cs[i].subClassOf[k], cs[i].name, SubClassOfLabel, Inherits);
    var rels := CandidateRelations(cs, ps);
    SuperEdgesIff(cs[i].name, cs[i].subClassOf, r);
    ClassRelationsIff(cs, r);
    assert r in rels;
    var j :| 0 <= j < |rels| && rels[j] == r;
    OtherEdgeKept(rels, j);
  }

  /** Each linkable equivalent name of a resolved class is joined to it by exactly one surviving equivalence edge. */
  lemma EquivalentEdgeShown(cs: Table, ps: seq<Property>, i: nat, k: nat)
    requires i < |cs| && k < |cs[i].equivalentTo| && Linkable(cs[i].equivalentTo[k]) && cs[i].name != Unknown
    ensures exists r :: (r in RelationList(cs, ps) && IsEquivalence(r) &&
      SamePair(r, Relation(cs[i].name, cs[i].equivalentTo[k], EquivalentToLabel, Dotted)))
  {
    var r := Relation(cs[i].name, cs[i].equivalentTo[k], EquivalentToLabel, Dotted);
    var rels := CandidateRelations(cs, ps);
    EquivalenceEdgesIff(cs[i].name, cs[i].equivalentTo, r);
    ClassRelationsIff(cs, r);
    assert r in rels;
    var j :| 0 <= j < |rels| && rels[j] == r;
    EquivalenceRepresented(rels, j);
  }
}
