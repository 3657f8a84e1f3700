/**
 * The class table (`extract_classes`): an accumulate-by-name reducer. Declared classes come
 * first, one entry per local name; owl:SubClassOf axioms, reified rdfs:subClassOf statements
 * and owl:EquivalentClasses groups are then merged in, each looking its class up by name,
 * extending the first entry that has it and otherwise appending a minimal entry.
 */
module Classes {
  import opened Common
  import opened Names
  import opened Document
  import opened Annotations

  /** The rdf:type of a reified subclass statement. */
  const SubClassOfUri: string := "http://www.w3.org/2000/01/rdf-schema#subClassOf"

  datatype ClassEntity = ClassEntity(
    name: string,
    annotations: seq<Annotation>,
    subClassOf: seq<string>,
    equivalentTo: seq<string>)

  type Table = seq<ClassEntity>

  // ---------------------------------------------------------------------------
  // Lookup by name

  /** `next(c for c in classes if c['name'] == name)`: the first index with that name, or `|t|`. */
  function IndexOfName(t: Table, name: string): (k: nat)
    ensures k <= |t|
    ensures k < |t| ==> t[k].name == name
    ensures forall j :: 0 <= j < k ==> t[j].name != name
  {
    if t == [] then 0
    else if t[0].name == name then 0
    else 1 + IndexOfName(t[1..], name)
  }

  /** Some entry of `t` has the name. */
  predicate Named(t: Table, name: string)
  {
    IndexOfName(t, name) < |t|
  }

  method FindClass(t: Table, name: string) returns (k: nat)
    ensures k == IndexOfName(t, name)
  {
    k := 0;
    while k < |t| && t[k].name != name
      invariant k <= |t|
      invariant forall j :: 0 <= j < k ==> t[j].name != name
    {
      k := k + 1;
    }
  }

  // ---------------------------------------------------------------------------
  // Name lists

  /** `if x not in xs: xs.append(x)` */
  function AppendNew(xs: seq<string>, x: string): (r: seq<string>)
    ensures xs <= r && x in r
    ensures |r| <= |xs| + 1
    ensures x in xs ==> r == xs
    ensures forall y :: y in r <==> y in xs || y == x
    ensures NoDuplicates(xs) ==> NoDuplicates(r)
    ensures "" !in xs && x != "" ==> "" !in r
  {
    if x in xs then xs
    else if NoDuplicates(xs) then AppendFresh(xs, x); xs + [x]
    else xs + [x]
  }

  /** `if x and x not in xs: xs.append(x)`, as the inline subclass and equivalence names are gathered. */
  function AddName(xs: seq<string>, x: string): (r: seq<string>)
    ensures xs <= r
    ensures x != "" ==> x in r
    ensures |r| <= |xs| + 1
    ensures x == "" || x in xs ==> r == xs
    ensures forall y :: y in r <==> y in xs || (y == x && x != "")
    ensures NoDuplicates(xs) ==> NoDuplicates(r)
    ensures "" !in xs ==> "" !in r
  {
    if x != "" then AppendNew(xs, x) else xs
  }

  /** A list of class names without repetitions and without the empty name. */
  predicate CleanNames(xs: seq<string>)
  {
    NoDuplicates(xs) && "" !in xs
  }

  /** The name an owl:Class child offers: the local name of its rdf:about, else of its IRI, when one is non-empty. */
  function NestedName(c: ClassRef): Option<string>
  {
    var id := Or(c.about, c.iri);
    if Truthy(id) then Some(LocalNameOf(id)) else None
  }

  /** The name an owl:Class child contributes to a list being gathered. */
  function AddNested(acc: seq<string>, c: ClassRef): seq<string>
  {
    if NestedName(c).Some? then AddName(acc, NestedName(c).value) else acc
  }

  /** The owl:Class children of one rdfs:subClassOf (or owl:equivalentClass) child, in order. */
  function NestedNames(acc: seq<string>, nested: seq<ClassRef>): seq<string>
  {
    if nested == [] then acc
    else AddNested(NestedNames(acc, nested[..|nested| - 1]), nested[|nested| - 1])
  }

  /** One rdfs:subClassOf or owl:equivalentClass child: its rdf:resource, else its nested classes. */
  function RefNames(acc: seq<string>, ref: RefElem): seq<string>
  {
    if Truthy(ref.resource) then AddName(acc, LocalNameOf(ref.resource))
    else NestedNames(acc, ref.nested)
  }

  /** The superclass (or equivalent-class) names written inside a class element. */
  function InlineNames(refs: seq<RefElem>): seq<string>
  {
    if refs == [] then []
    else RefNames(InlineNames(refs[..|refs| - 1]), refs[|refs| - 1])
  }

  /** Gathering keeps the names gathered so far, in order, and adds neither a repetition nor the empty name. */
  lemma {:induction false} NestedNamesClean(acc: seq<string>, nested: seq<ClassRef>)
    ensures acc <= NestedNames(acc, nested)
    ensures CleanNames(acc) ==> CleanNames(NestedNames(acc, nested))
  {
    if nested != [] {
      var before := NestedNames(acc, nested[..|nested| - 1]);
      NestedNamesClean(acc, nested[..|nested| - 1]);
      var r := AddNested(before, nested[|nested| - 1]);
      assert before <= r;
      assert acc == before[..|acc|] == r[..|acc|];
    }
  }

  lemma RefNamesClean(acc: seq<string>, ref: RefElem)
    ensures acc <= RefNames(acc, ref)
    ensures CleanNames(acc) ==> CleanNames(RefNames(acc, ref))
  {
    if !Truthy(ref.resource) {
      NestedNamesClean(acc, ref.nested);
    }
  }

  /** The inline names of a class element hold no repetition and no empty name. */
  lemma {:induction false} InlineNamesClean(refs: seq<RefElem>)
    ensures CleanNames(InlineNames(refs))
  {
    if refs != [] {
      InlineNamesClean(refs[..|refs| - 1]);
      RefNamesClean(InlineNames(refs[..|refs| - 1]), refs[|refs| - 1]);
    }
  }

  /** Some owl:Class child among `nested` offers the name `x`. */
  predicate NestedOffer(nested: seq<ClassRef>, x: string)
  {
    exists j :: 0 <= j < |nested| && NestedName(nested[j]) == Some(x)
  }

  /** Some element of `init + [last]` satisfies `p` iff one of `init` does or `last` does. */
  lemma SomeSnoc<T>(s: seq<T>, init: seq<T>, last: T, p: T -> bool)
    requires s == init + [last]
    ensures (exists j :: 0 <= j < |s| && p(s[j])) <==> (exists j :: 0 <= j < |init| && p(init[j])) || p(last)
  {
    if exists j :: 0 <= j < |s| && p(s[j]) {
      var j :| 0 <= j < |s| && p(s[j]);
      if j < |init| {
        assert init[j] == s[j];
      }
    }
    if exists j :: 0 <= j < |init| && p(init[j]) {
      var j :| 0 <= j < |init| && p(init[j]);
      assert s[j] == init[j];
    }
    if p(last) {
      assert s[|init|] == last;
    }
  }

  lemma NestedOfferSnoc(nested: seq<ClassRef>, x: string)
    requires nested != []
    ensures NestedOffer(nested, x) <==>
              NestedOffer(nested[..|nested| - 1], x) || NestedName(nested[|nested| - 1]) == Some(x)
  {
    var n := |nested| - 1;
    assert nested == nested[..n] + [nested[n]];
    SomeSnoc(nested, nested[..n], nested[n], c => NestedName(c) == Some(x));
  }

  /** Gathering the nested classes adds exactly their non-empty names. */
  lemma {:induction false} NestedNamesIff(acc: seq<string>, nested: seq<ClassRef>, x: string)
    ensures x in NestedNames(acc, nested) <==> x in acc || (x != "" && NestedOffer(nested, x))
  {
    if nested != [] {
      var n := |nested| - 1;
      var before := NestedNames(acc, nested[..n]);
      assert NestedNames(acc, nested) == AddNested(before, nested[n]);
      NestedNamesIff(acc, nested[..n], x);
      NestedOfferSnoc(nested, x);
    }
  }

  /**
   * `x` is a name an rdfs:subClassOf or owl:equivalentClass child offers: the local name of its
   * rdf:resource when that is non-empty, else the name of one of its owl:Class children.
   */
  predicate RefOffers(ref: RefElem, x: string)
  {
    if Truthy(ref.resource) then LocalNameOf(ref.resource) == x else NestedOffer(ref.nested, x)
  }

  /** One child adds exactly the non-empty names it offers. */
  lemma RefNamesIff(acc: seq<string>, ref: RefElem, x: string)
    ensures x in RefNames(acc, ref) <==> x in acc || (x != "" && RefOffers(ref, x))
  {
    if !Truthy(ref.resource) {
      NestedNamesIff(acc, ref.nested, x);
    }
  }

  /** Some child among `refs` offers the name `x`. */
  predicate InlineOffer(refs: seq<RefElem>, x: string)
  {
    exists i :: 0 <= i < |refs| && RefOffers(refs[i], x)
  }

  lemma InlineOfferSnoc(refs: seq<RefElem>, x: string)
    requires refs != []
    ensures InlineOffer(refs, x) <==> InlineOffer(refs[..|refs| - 1], x) || RefOffers(refs[|refs| - 1], x)
  {
    var n := |refs| - 1;
    assert refs == refs[..n] + [refs[n]];
    SomeSnoc(refs, refs[..n], refs[n], r => RefOffers(r, x));
  }

  /** A class element's inline list holds exactly the non-empty names its children offer. */
  lemma {:induction false} InlineNamesIff(refs: seq<RefElem>, x: string)
    ensures x in InlineNames(refs) <==> x != "" && InlineOffer(refs, x)
  {
    if refs != [] {
      var n := |refs| - 1;
      InlineNamesIff(refs[..n], x);
      RefNamesIff(InlineNames(refs[..n]), refs[n], x);
      InlineOfferSnoc(refs, x);
    }
  }

  method CollectNestedNames(acc: seq<string>, nested: seq<ClassRef>) returns (names: seq<string>)
    ensures names == NestedNames(acc, nested)
  {
    names := acc;
    for j := 0 to |nested|
      invariant names == NestedNames(acc, nested[..j])
    {
      assert nested[..j + 1][..j] == nested[..j];
      var nestedId := Or(nested[j].about, nested[j].iri);
      if nestedId.Some? && nestedId.value != "" {
        var parent := LocalNameOf(nestedId);
        if parent != "" && parent !in names {
          names := names + [parent];
        }
      }
    }
    assert nested[..|nested|] == nested;
  }

  method CollectRefNames(acc: seq<string>, ref: RefElem) returns (names: seq<string>)
    ensures names == RefNames(acc, ref)
  {
    var resource := ref.resource;
    if resource.Some? && resource.value != "" {
      var parent := LocalNameOf(resource);
      names := acc;
      if parent != "" && parent !in names {
        names := names + [parent];
      }
    } else {
      names := CollectNestedNames(acc, ref.nested);
    }
  }

  method CollectInlineNames(refs: seq<RefElem>) returns (names: seq<string>)
    ensures names == InlineNames(refs)
  {
    names := [];
    for i := 0 to |refs|
      invariant names == InlineNames(refs[..i])
    {
      assert refs[..i + 1][..i] == refs[..i];
      names := CollectRefNames(names, refs[i]);
    }
    assert refs[..|refs|] == refs;
  }

  // ---------------------------------------------------------------------------
  // Stage 1: declared classes

  /** The name a class element declares: the local name of its rdf:about, else of its rdf:ID, when one is non-empty. */
  function DeclaredName(c: ClassElem): Option<string>
  {
    var id := Or(c.about, c.id);
    if Truthy(id) then Some(LocalNameOf(id)) else None
  }

  /** The entry a class element that declares a name gives: its annotations and its inline lists. */
  function DeclaredEntity(c: ClassElem): ClassEntity
    requires DeclaredName(c).Some?
  {
    ClassEntity(DeclaredName(c).value, AnnotationsOf(c.annotated), InlineNames(c.subClassOf), InlineNames(c.equivalentClass))
  }

  /** A declared class, unless its name is already in the table or it has neither rdf:about nor rdf:ID. */
  function DeclareStep(t: Table, c: ClassElem): Table
  {
    if DeclaredName(c).None? || Named(t, DeclaredName(c).value) then t
    else t + [DeclaredEntity(c)]
  }

  function DeclaredClasses(cs: seq<ClassElem>): Table
  {
    if cs == [] then [] else DeclareStep(DeclaredClasses(cs[..|cs| - 1]), cs[|cs| - 1])
  }

  /** Appending an entry leaves the first index of every name already present where it was. */
  lemma IndexOfAppend(t: Table, e: ClassEntity, name: string)
    ensures IndexOfName(t + [e], name) == if Named(t, name) then IndexOfName(t, name)
                                          else if e.name == name then |t| else |t| + 1
  {
    var u := t + [e];
    var k := IndexOfName(t, name);
    assert forall j :: 0 <= j < |t| ==> u[j] == t[j];
    if k < |t| {
      assert u[k].name == name;
    } else if e.name == name {
      assert u[|t|].name == name;
    }
  }

  method DeclareClasses(cs: seq<ClassElem>) returns (t: Table)
    ensures t == DeclaredClasses(cs)
  {
    t := [];
    var added: set<string> := {};
    for i := 0 to |cs|
      invariant t == DeclaredClasses(cs[..i])
      invariant forall x :: x in added <==> Named(t, x)
    {
      assert cs[..i + 1][..i] == cs[..i];
      var cls := cs[i];
      var classId := Or(cls.about, cls.id);
      if classId.None? || classId.value == "" {
        continue;
      }
      var name := LocalNameOf(classId);
      if name in added {
        continue;
      }
      added := added + {name};
      var anns := ExtractAnnotations(cls.annotated);
      var supers := CollectInlineNames(cls.subClassOf);
      var equivs := CollectInlineNames(cls.equivalentClass);
      var e := ClassEntity(name, anns, supers, equivs);
      forall x
        ensures Named(t + [e], x) <==> Named(t, x) || x == name
      {
        IndexOfAppend(t, e, x);
      }
      t := t + [e];
    }
    assert cs[..|cs|] == cs;
  }

  // ---------------------------------------------------------------------------
  // Merges

  /** Record `sup` as a superclass of `sub`: extend the first entry named `sub`, or append a minimal one. */
  function WithSuperclass(t: Table, sub: string, sup: string): Table
  {
    var k := IndexOfName(t, sub);
    if k < |t| then t[k := t[k].(subClassOf := AppendNew(t[k].subClassOf, sup))]
    else t + [ClassEntity(sub, [], [sup], [])]
  }

  /** Record `other` as equivalent to `name`: extend the first entry named `name`, or append a minimal one. */
  function WithEquivalent(t: Table, name: string, other: string): Table
  {
    var k := IndexOfName(t, name);
    if k < |t| then t[k := t[k].(equivalentTo := AppendNew(t[k].equivalentTo, other))]
    else t + [ClassEntity(name, [], [], [other])]
  }

  method AddSuperclass(t: Table, sub: string, sup: string) returns (r: Table)
    ensures r == WithSuperclass(t, sub, sup)
  {
    var k := FindClass(t, sub);
    if k < |t| {
      var existing := t[k];
      if sup !in existing.subClassOf {
        r := t[k := existing.(subClassOf := existing.subClassOf + [sup])];
      } else {
        r := t;
      }
    } else {
      r := t + [ClassEntity(sub, [], [sup], [])];
    }
  }

  method AddEquivalent(t: Table, name: string, other: string) returns (r: Table)
    ensures r == WithEquivalent(t, name, other)
  {
    var k := FindClass(t, name);
    if k < |t| {
      var existing := t[k];
      if other !in existing.equivalentTo {
        r := t[k := existing.(equivalentTo := existing.equivalentTo + [other])];
      } else {
        r := t;
      }
    } else {
      r := t + [ClassEntity(name, [], [], [other])];
    }
  }

  // ---------------------------------------------------------------------------
  // Stage 2: owl:SubClassOf axioms; stage 3: reified subclass statements

  /** The local name of the `i`-th owl:Class child of an axiom (IRI first, then rdf:about), if it has one. */
  function AxiomClassName(ax: ClassAxiom, i: nat): Option<string>
  {
    if i < |ax.classes| then Some(LocalNameOf(Or(ax.classes[i].iri, ax.classes[i].about))) else None
  }

  /** The (subclass, superclass) pair an owl:SubClassOf axiom states, when both names are non-empty. */
  function AxiomPair(ax: ClassAxiom): Option<(string, string)>
  {
    var sub := AxiomClassName(ax, 0);
    var sup := AxiomClassName(ax, 1);
    if Truthy(sub) && Truthy(sup) then Some((sub.value, sup.value)) else None
  }

  /** The (subject, object) pair of a reified rdfs:subClassOf statement, when both names are non-empty. */
  function StatementPair(e: RdfElem): Option<(string, string)>
  {
    if e.rdfType != Some(SubClassOfUri) then None
    else
      var sub := LocalNameOf(e.rdfSubject);
      var sup := LocalNameOf(e.rdfObject);
      if sub != "" && sup != "" then Some((sub, sup)) else None
  }

  /** Pairs whose two names are non-empty. */
  predicate NamedPairs(ps: seq<(string, string)>)
  {
    forall i :: 0 <= i < |ps| ==> ps[i].0 != "" && ps[i].1 != ""
  }

  function AxiomPairs(axs: seq<ClassAxiom>): (r: seq<(string, string)>)
    ensures |r| <= |axs| && NamedPairs(r)
  {
    if axs == [] then []
    else
      var p := AxiomPair(axs[|axs| - 1]);
      AxiomPairs(axs[..|axs| - 1]) + (if p.Some? then [p.value] else [])
  }

  function StatementPairs(es: seq<RdfElem>): (r: seq<(string, string)>)
    ensures |r| <= |es| && NamedPairs(r)
  {
    if es == [] then []
    else
      var p := StatementPair(es[|es| - 1]);
      StatementPairs(es[..|es| - 1]) + (if p.Some? then [p.value] else [])
  }

  /** The pairs merged one after the other, in order. */
  function WithSuperclasses(t: Table, ps: seq<(string, string)>): Table
  {
    if ps == [] then t
    else WithSuperclass(WithSuperclasses(t, ps[..|ps| - 1]), ps[|ps| - 1].0, ps[|ps| - 1].1)
  }

  /** Merging one pair more. */
  lemma WithSuperclassesSnoc(t: Table, ps: seq<(string, string)>, p: (string, string))
    ensures WithSuperclasses(t, ps + [p]) == WithSuperclass(WithSuperclasses(t, ps), p.0, p.1)
  {
    assert (ps + [p])[..|ps|] == ps;
  }

  lemma AxiomPairsSnoc(axs: seq<ClassAxiom>, i: nat)
    requires i < |axs|
    ensures AxiomPairs(axs[..i + 1]) == AxiomPairs(axs[..i]) + (if AxiomPair(axs[i]).Some? then [AxiomPair(axs[i]).value] else [])
  {
    assert axs[..i + 1][..i] == axs[..i];
  }

  lemma StatementPairsSnoc(es: seq<RdfElem>, i: nat)
    requires i < |es|
    ensures StatementPairs(es[..i + 1]) == StatementPairs(es[..i]) + (if StatementPair(es[i]).Some? then [StatementPair(es[i]).value] else [])
  {
    assert es[..i + 1][..i] == es[..i];
  }

  method MergeSubClassAxioms(t0: Table, axs: seq<ClassAxiom>) returns (t: Table)
    ensures t == WithSuperclasses(t0, AxiomPairs(axs))
  {
    t := t0;
    ghost var merged: seq<(string, string)> := [];
    for i := 0 to |axs|
      invariant merged == AxiomPairs(axs[..i])
      invariant t == WithSuperclasses(t0, merged)
    {
      AxiomPairsSnoc(axs, i);
      var sub := AxiomClassName(axs[i], 0);
      var sup := AxiomClassName(axs[i], 1);
      if sub.Some? && sub.value != "" && sup.Some? && sup.value != "" {
        WithSuperclassesSnoc(t0, merged, (sub.value, sup.value));
        t := AddSuperclass(t, sub.value, sup.value);
        merged := merged + [(sub.value, sup.value)];
      } else {
        assert merged + [] == merged;
      }
    }
    assert axs[..|axs|] == axs;
  }

  method MergeSubClassStatements(t0: Table, es: seq<RdfElem>) returns (t: Table)
    ensures t == WithSuperclasses(t0, StatementPairs(es))
  {
    t := t0;
    ghost var merged: seq<(string, string)> := [];
    for i := 0 to |es|
      invariant merged == StatementPairs(es[..i])
      invariant t == WithSuperclasses(t0, merged)
    {
      StatementPairsSnoc(es, i);
      if es[i].rdfType == Some(SubClassOfUri) {
        var sub := LocalNameOf(es[i].rdfSubject);
        var sup := LocalNameOf(es[i].rdfObject);
        if sub != "" && sup != "" {
          WithSuperclassesSnoc(t0, merged, (sub, sup));
          t := AddSuperclass(t, sub, sup);
          merged := merged + [(sub, sup)];
        } else {
          assert merged + [] == merged;
        }
      } else {
        assert merged + [] == merged;
      }
    }
    assert es[..|es|] == es;
  }

  // ---------------------------------------------------------------------------
  // Stage 4: equivalence groups

  /** The non-empty local names of an owl:EquivalentClasses axiom's classes, in order. */
  function GroupNames(cs: seq<ClassRef>): (r: seq<string>)
    ensures "" !in r
  {
    if cs == [] then []
    else
      var c := cs[|cs| - 1];
      var name := LocalNameOf(Or(c.iri, c.about));
      GroupNames(cs[..|cs| - 1]) + (if name != "" then [name] else [])
  }

  /** The groups of at least two names, one per owl:EquivalentClasses axiom that has them. */
  function EquivalenceGroups(axs: seq<ClassAxiom>): (r: seq<seq<string>>)
    ensures forall g :: g in r ==> |g| >= 2 && "" !in g
  {
    if axs == [] then []
    else
      var names := GroupNames(axs[|axs| - 1].classes);
      EquivalenceGroups(axs[..|axs| - 1]) + (if |names| >= 2 then [names] else [])
  }

  /** The (member, partner) links of member `i` to the partners `g[0..m)` other than itself, in loop order. */
  function PartnerLinks(g: seq<string>, i: nat, m: nat): (r: seq<(string, string)>)
    requires i < |g| && m <= |g|
    ensures |r| <= m
  {
    if m == 0 then []
    else PartnerLinks(g, i, m - 1) + (if i != m - 1 then [(g[i], g[m - 1])] else [])
  }

  /** The links of the members `g[0..n)`, member after member. */
  function MemberLinks(g: seq<string>, n: nat): seq<(string, string)>
    requires n <= |g|
  {
    if n == 0 then [] else MemberLinks(g, n - 1) + PartnerLinks(g, n - 1, |g|)
  }

  /** The links of every group, group after group, in the order the nested loops merge them. */
  function GroupLinks(gs: seq<seq<string>>): seq<(string, string)>
  {
    if gs == [] then []
    else
      var g := gs[|gs| - 1];
      GroupLinks(gs[..|gs| - 1]) + MemberLinks(g, |g|)
  }

  /** The links merged one after the other, in order. */
  function WithEquivalents(t: Table, ps: seq<(string, string)>): Table
  {
    if ps == [] then t
    else WithEquivalent(WithEquivalents(t, ps[..|ps| - 1]), ps[|ps| - 1].0, ps[|ps| - 1].1)
  }

  /** Partner `j` adds one link, unless `j` is the member itself. */
  lemma PartnerLinkStep(t0: Table, g: seq<string>, i: nat, j: nat)
    requires i < |g| && j < |g|
    ensures WithEquivalents(t0, PartnerLinks(g, i, j + 1)) ==
            if i != j then WithEquivalent(WithEquivalents(t0, PartnerLinks(g, i, j)), g[i], g[j])
            else WithEquivalents(t0, PartnerLinks(g, i, j))
  {
    var before := PartnerLinks(g, i, j);
    if i != j {
      WithEquivalentsSnoc(t0, before, (g[i], g[j]));
    } else {
      assert PartnerLinks(g, i, j + 1) == before + [] == before;
    }
  }

  lemma WithEquivalentsSnoc(t: Table, ps: seq<(string, string)>, p: (string, string))
    ensures WithEquivalents(t, ps + [p]) == WithEquivalent(WithEquivalents(t, ps), p.0, p.1)
  {
    assert (ps + [p])[..|ps|] == ps;
  }

  /** Merging two runs of links one after the other is merging their concatenation. */
  lemma {:induction false} WithEquivalentsAppend(t: Table, a: seq<(string, string)>, b: seq<(string, string)>)
    ensures WithEquivalents(t, a + b) == WithEquivalents(WithEquivalents(t, a), b)
  {
    if b == [] {
      assert a + b == a;
    } else {
      var n := |b| - 1;
      assert (a + b)[..|a + b| - 1] == a + b[..n];
      WithEquivalentsAppend(t, a, b[..n]);
    }
  }

  method CollectGroupNames(cs: seq<ClassRef>) returns (names: seq<string>)
    ensures names == GroupNames(cs)
  {
    names := [];
    for j := 0 to |cs|
      invariant names == GroupNames(cs[..j])
    {
      assert cs[..j + 1][..j] == cs[..j];
      var name := LocalNameOf(Or(cs[j].iri, cs[j].about));
      if name != "" {
        names := names + [name];
      }
    }
    assert cs[..|cs|] == cs;
  }

  method CollectEquivalenceGroups(axs: seq<ClassAxiom>) returns (groups: seq<seq<string>>)
    ensures groups == EquivalenceGroups(axs)
  {
    groups := [];
    for i := 0 to |axs|
      invariant groups == EquivalenceGroups(axs[..i])
    {
      assert axs[..i + 1][..i] == axs[..i];
      var names := CollectGroupNames(axs[i].classes);
      if |names| >= 2 {
        groups := groups + [names];
      }
    }
    assert axs[..|axs|] == axs;
  }

  /** The inner `for j in range(len(equiv_group))` loop for member `i`. */
  method LinkMember(t0: Table, g: seq<string>, i: nat) returns (t: Table)
    requires i < |g|
    ensures t == WithEquivalents(t0, PartnerLinks(g, i, |g|))
  {
    t := t0;
    for j := 0 to |g|
      invariant t == WithEquivalents(t0, PartnerLinks(g, i, j))
    {
      PartnerLinkStep(t0, g, i, j);
      if i != j {
        t := AddEquivalent(t, g[i], g[j]);
      }
    }
  }

  method LinkGroup(t0: Table, g: seq<string>) returns (t: Table)
    ensures t == WithEquivalents(t0, MemberLinks(g, |g|))
  {
    t := t0;
    ghost var linked: seq<(string, string)> := [];
    for i := 0 to |g|
      invariant linked == MemberLinks(g, i)
      invariant t == WithEquivalents(t0, linked)
    {
      WithEquivalentsAppend(t0, linked, PartnerLinks(g, i, |g|));
      t := LinkMember(t, g, i);
      linked := linked + PartnerLinks(g, i, |g|);
    }
  }

  method MergeEquivalenceGroups(t0: Table, groups: seq<seq<string>>) returns (t: Table)
    ensures t == WithEquivalents(t0, GroupLinks(groups))
  {
    t := t0;
    ghost var linked: seq<(string, string)> := [];
    for gi := 0 to |groups|
      invariant linked == GroupLinks(groups[..gi])
      invariant t == WithEquivalents(t0, linked)
    {
      assert groups[..gi + 1][..gi] == groups[..gi];
      var g := groups[gi];
      WithEquivalentsAppend(t0, linked, MemberLinks(g, |g|));
      t := LinkGroup(t, g);
      linked := linked + MemberLinks(g, |g|);
    }
    assert groups[..|groups|] == groups;
  }

  // ---------------------------------------------------------------------------
  // The whole table

  /** extract_classes over the document's class elements, axioms and statements. */
  function ClassTable(doc: Document): Table
  {
    var declared := DeclaredClasses(doc.classElems);
    var withAxioms := WithSuperclasses(declared, AxiomPairs(doc.subClassAxioms));
    var withStatements := WithSuperclasses(withAxioms, StatementPairs(doc.rdfElems));
    WithEquivalents(withStatements, GroupLinks(EquivalenceGroups(doc.equivalenceAxioms)))
  }

  method ExtractClasses(doc: Document) returns (classes: Table)
    ensures classes == ClassTable(doc)
  {
    classes := DeclareClasses(doc.classElems);
    classes := MergeSubClassAxioms(classes, doc.subClassAxioms);
    classes := MergeSubClassStatements(classes, doc.rdfElems);
    var groups := CollectEquivalenceGroups(doc.equivalenceAxioms);
    classes := MergeEquivalenceGroups(classes, groups);
  }
}
