/** What the property records satisfy: the fan-out, the statement lookup, the axioms' effect and the key properties. */
module PropertyFacts {
  import opened Common
  import opened Names
  import opened Document
  import opened Annotations
  import opened Properties

  // ---------------------------------------------------------------------------
  // Fan-out of an owl:ObjectProperty

  /** One copy per domain, each carrying its domain in order. */
  lemma {:induction false} FannedShape(base: Property, domains: seq<string>)
    ensures |Fanned(base, domains)| == |domains|
    ensures forall k :: 0 <= k < |domains| ==> Fanned(base, domains)[k] == base.(domain := Some(domains[k]))
  {
    if domains != [] {
      var n := |domains| - 1;
      FannedShape(base, domains[..n]);
      assert forall k :: 0 <= k < n ==> domains[..n][k] == domains[k];
    }
  }

  /**
   * An object property with k domains gives exactly k records, the j-th with domain j; one
   * with no domain gives one record with domain None. Every record has the property's
   * name, its first range (None when it has none) and its annotations.
   */
  lemma ObjectFanOut(p: ObjectPropertyElem)
    ensures var r := ObjectEntries(p);
            var ds := DomainsOf(p.domains);
            |r| == (if ds == [] then 1 else |ds|) &&
            (ds == [] ==> r[0].domain == None) &&
            (forall k :: 0 <= k < |ds| ==> r[k].domain == Some(ds[k])) &&
            (forall k :: 0 <= k < |r| ==>
               r[k].name == PropertyName(p.about, p.id) && r[k].kind == ObjectProperty &&
               r[k].range == FirstOf(TruthyNames(p.ranges)) && r[k].annotations == AnnotationsOf(p.annotated))
  {
    FannedShape(ObjectBase(p), DomainsOf(p.domains));
  }

  // ---------------------------------------------------------------------------
  // owl:DatatypeProperty: the last domain and range win

  /** Whatever precedes the last resource does not matter. */
  lemma LastLocalNameWins(a: seq<Option<string>>, b: seq<Option<string>>)
    requires b != []
    ensures LastLocalName(a + b) == LastLocalName(b)
  {
    assert (a + b)[|a + b| - 1] == b[|b| - 1];
  }

  /** A data property has a domain exactly when it has an rdfs:domain child; the last child gives it. */
  lemma DatatypeDomain(p: DatatypePropertyElem)
    ensures DatatypeEntry(p).domain.Some? <==> p.domains != []
    ensures p.domains != [] ==> DatatypeEntry(p).domain == Some(LocalNameOf(p.domains[|p.domains| - 1]))
    ensures DatatypeEntry(p).range.Some? <==> p.ranges != []
    ensures p.ranges != [] ==> DatatypeEntry(p).range == Some(LocalNameOf(p.ranges[|p.ranges| - 1]))
    ensures DatatypeEntry(p).kind == DataProperty
  {
  }

  // ---------------------------------------------------------------------------
  // Elements typed owl:DatatypeProperty

  /** Statements that are about another subject, or carry neither predicate, change nothing. */
  lemma {:induction false} StatementsIgnoreOthers(acc: Property, subject: string, es: seq<RdfElem>, rdfs: string)
    requires forall k :: 0 <= k < |es| ==>
               es[k].rdfSubject != Some(subject) ||
               (es[k].rdfPredicate != Some(DomainPredicate(rdfs)) && es[k].rdfPredicate != Some(RangePredicate(rdfs)))
    ensures Statements(acc, subject, es, rdfs) == acc
  {
    if es != [] {
      var n := |es| - 1;
      assert forall k :: 0 <= k < n ==> es[..n][k] == es[k];
      StatementsIgnoreOthers(acc, subject, es[..n], rdfs);
    }
  }

  /** The predicate test compares with the rdfs namespace in braces: the plain URI of rdfs:domain is not it. */
  lemma PlainPredicateDiffers(rdfs: string)
    ensures rdfs + "domain" != DomainPredicate(rdfs)
    ensures rdfs + "range" != RangePredicate(rdfs)
    ensures rdfs + "domain" != RangePredicate(rdfs)
    ensures rdfs + "range" != DomainPredicate(rdfs)
  {
    assert |DomainPredicate(rdfs)| == |rdfs| + 8;
    assert |RangePredicate(rdfs)| == |rdfs| + 7;
  }

  /** A predicate as RDF writes it: absent, or the plain URI of rdfs:domain or rdfs:range. */
  predicate PlainPredicate(o: Option<string>, rdfs: string)
  {
    o.None? || o == Some(rdfs + "domain") || o == Some(rdfs + "range")
  }

  /**
   * Statements whose predicates are plain URIs are never recognised: the record of an
   * element typed owl:DatatypeProperty keeps domain None and range None.
   */
  lemma ReifiedWithPlainPredicates(e: RdfElem, all: seq<RdfElem>, rdfs: string)
    requires ReifiedEntry(e, all, rdfs).Some?
    requires forall k :: 0 <= k < |all| ==> PlainPredicate(all[k].rdfPredicate, rdfs)
    ensures ReifiedEntry(e, all, rdfs).value.domain.None? && ReifiedEntry(e, all, rdfs).value.range.None?
  {
    PlainPredicateDiffers(rdfs);
    StatementsIgnoreOthers(Property(LocalNameOf(e.about), DataProperty, None, None, []), Shown(e.about), all, rdfs);
  }

  /** A statement about `subject` that sets the domain. */
  predicate SetsDomain(st: RdfElem, subject: string, rdfs: string)
  {
    st.rdfSubject == Some(subject) && st.rdfPredicate == Some(DomainPredicate(rdfs))
  }

  /** Applying two runs of statements one after the other is applying their concatenation. */
  lemma {:induction false} StatementsAppend(acc: Property, subject: string, a: seq<RdfElem>, b: seq<RdfElem>, rdfs: string)
    ensures Statements(acc, subject, a + b, rdfs) == Statements(Statements(acc, subject, a, rdfs), subject, b, rdfs)
  {
    if b == [] {
      assert a + b == a;
    } else {
      var n := |b| - 1;
      assert (a + b)[..|a + b| - 1] == a + b[..n];
      assert (a + b)[|a + b| - 1] == b[n];
      StatementsAppend(acc, subject, a, b[..n], rdfs);
    }
  }

  /** Statements none of which sets the domain of `subject` leave the domain as it was. */
  lemma {:induction false} StatementsKeepDomain(acc: Property, subject: string, es: seq<RdfElem>, rdfs: string)
    requires forall k :: 0 <= k < |es| ==> !SetsDomain(es[k], subject, rdfs)
    ensures Statements(acc, subject, es, rdfs).domain == acc.domain
  {
    if es != [] {
      var n := |es| - 1;
      assert forall k :: 0 <= k < n ==> es[..n][k] == es[k];
      StatementsKeepDomain(acc, subject, es[..n], rdfs);
    }
  }

  /** The last domain statement about the subject gives the domain. */
  lemma StatementsLastDomain(acc: Property, subject: string, es: seq<RdfElem>, rdfs: string, i: nat)
    requires i < |es| && SetsDomain(es[i], subject, rdfs)
    requires forall j :: i < j < |es| ==> !SetsDomain(es[j], subject, rdfs)
    ensures Statements(acc, subject, es, rdfs).domain == Some(LocalNameOf(es[i].rdfObject))
  {
    var head := es[..i + 1];
    var tail := es[i + 1..];
    assert es == head + tail;
    assert head[..i] == es[..i] && head[i] == es[i];
    var mid := Statements(acc, subject, head, rdfs);
    assert mid.domain == Some(LocalNameOf(es[i].rdfObject));
    assert forall k :: 0 <= k < |tail| ==> tail[k] == es[i + 1 + k];
    StatementsKeepDomain(mid, subject, tail, rdfs);
    StatementsAppend(acc, subject, head, tail, rdfs);
  }

  /** A statement about `subject` that sets the range. */
  predicate SetsRange(st: RdfElem, subject: string, rdfs: string)
  {
    st.rdfSubject == Some(subject) && st.rdfPredicate == Some(RangePredicate(rdfs))
  }

  /** Statements none of which sets the range of `subject` leave the range as it was. */
  lemma {:induction false} StatementsKeepRange(acc: Property, subject: string, es: seq<RdfElem>, rdfs: string)
    requires forall k :: 0 <= k < |es| ==> !SetsRange(es[k], subject, rdfs)
    ensures Statements(acc, subject, es, rdfs).range == acc.range
  {
    if es != [] {
      var n := |es| - 1;
      assert forall k :: 0 <= k < n ==> es[..n][k] == es[k];
      StatementsKeepRange(acc, subject, es[..n], rdfs);
    }
  }

  /** The last range statement about the subject gives the range. */
  lemma StatementsLastRange(acc: Property, subject: string, es: seq<RdfElem>, rdfs: string, i: nat)
    requires i < |es| && SetsRange(es[i], subject, rdfs)
    requires forall j :: i < j < |es| ==> !SetsRange(es[j], subject, rdfs)
    ensures Statements(acc, subject, es, rdfs).range == Some(LocalNameOf(es[i].rdfObject))
  {
    var head := es[..i + 1];
    var tail := es[i + 1..];
    assert es == head + tail;
    assert head[..i] == es[..i] && head[i] == es[i];
    assert |DomainPredicate(rdfs)| != |RangePredicate(rdfs)|;
    var mid := Statements(acc, subject, head, rdfs);
    assert mid.range == Some(LocalNameOf(es[i].rdfObject));
    assert forall k :: 0 <= k < |tail| ==> tail[k] == es[i + 1 + k];
    StatementsKeepRange(mid, subject, tail, rdfs);
    StatementsAppend(acc, subject, head, tail, rdfs);
  }

  /** An element yields a record exactly when it is typed owl:DatatypeProperty and its about IRI has a non-empty local name. */
  lemma ReifiedEntryIff(e: RdfElem, all: seq<RdfElem>, rdfs: string)
    ensures ReifiedEntry(e, all, rdfs).Some? <==> e.rdfType == Some(DatatypePropertyUri) && LocalNameOf(e.about) != ""
    ensures ReifiedEntry(e, all, rdfs).Some? ==>
              ReifiedEntry(e, all, rdfs).value.name == LocalNameOf(e.about) &&
              ReifiedEntry(e, all, rdfs).value.kind == DataProperty &&
              ReifiedEntry(e, all, rdfs).value.annotations == []
  {
    if ReifiedEntry(e, all, rdfs).Some? {
      StatementsKeepName(Property(LocalNameOf(e.about), DataProperty, None, None, []), Shown(e.about), all, rdfs);
    }
  }

  /** Statements change only the domain and the range. */
  lemma {:induction false} StatementsKeepName(acc: Property, subject: string, es: seq<RdfElem>, rdfs: string)
    ensures var r := Statements(acc, subject, es, rdfs);
            r.name == acc.name && r.kind == acc.kind && r.annotations == acc.annotations
  {
    if es != [] {
      StatementsKeepName(acc, subject, es[..|es| - 1], rdfs);
    }
  }

  // ---------------------------------------------------------------------------
  // Domain and range axioms

  /** The other field. */
  function OtherFacet(f: Facet): Facet
  {
    if f == DomainFacet then RangeFacet else DomainFacet
  }

  /**
   * `r` results from applying axioms of facet `f` to `ps`: every record keeps its place, its
   * name, its kind, its annotations and its other field; appended records are object
   * properties without annotations whose other field is None.
   */
  predicate Keeps(ps: seq<Property>, r: seq<Property>, f: Facet)
  {
    |ps| <= |r| &&
    (forall m :: 0 <= m < |ps| ==>
       r[m].name == ps[m].name && r[m].kind == ps[m].kind && r[m].annotations == ps[m].annotations &&
       FacetOf(r[m], OtherFacet(f)) == FacetOf(ps[m], OtherFacet(f))) &&
    (forall m :: |ps| <= m < |r| ==>
       r[m].kind == ObjectProperty && r[m].annotations == [] && FacetOf(r[m], OtherFacet(f)) == None)
  }

  lemma KeepsTrans(p1: seq<Property>, p2: seq<Property>, p3: seq<Property>, f: Facet)
    requires Keeps(p1, p2, f) && Keeps(p2, p3, f)
    ensures Keeps(p1, p3, f)
  {
  }

  /** A name found among records whose names are kept is found at the same index. */
  lemma IndexStable(ps: seq<Property>, r: seq<Property>, name: string)
    requires |ps| <= |r| && forall m :: 0 <= m < |ps| ==> r[m].name == ps[m].name
    requires IndexOfProperty(ps, name) < |ps|
    ensures IndexOfProperty(r, name) == IndexOfProperty(ps, name)
  {
    var k := IndexOfProperty(ps, name);
    assert r[k].name == name;
  }

  lemma IndexOfAppended(ps: seq<Property>, e: Property)
    requires IndexOfProperty(ps, e.name) == |ps|
    ensures IndexOfProperty(ps + [e], e.name) == |ps|
  {
    var u := ps + [e];
    assert forall j :: 0 <= j < |ps| ==> u[j] == ps[j];
    assert u[|ps|] == e;
  }

  lemma BindingKeeps(ps: seq<Property>, f: Facet, name: string, cls: string)
    ensures Keeps(ps, WithBinding(ps, f, name, cls), f)
  {
  }

  /**
   * One axiom changes only the first record with its property's name, or appends exactly one
   * new object property carrying only that field when no record has the name.
   */
  lemma BindingShape(ps: seq<Property>, f: Facet, name: string, cls: string)
    ensures var r := WithBinding(ps, f, name, cls);
            var k := IndexOfProperty(ps, name);
            (k < |ps| ==> |r| == |ps| && r[k] == SetFacet(ps[k], f, cls)) &&
            (k == |ps| ==> |r| == |ps| + 1 && r[|ps|] == SetFacet(Property(name, ObjectProperty, None, None, []), f, cls)) &&
            forall m :: 0 <= m < |ps| && m != k ==> r[m] == ps[m]
  {
  }

  /** An axiom sets its field on the first record with its property's name, which exists afterwards. */
  lemma BindingRecorded(ps: seq<Property>, f: Facet, name: string, cls: string)
    ensures var r := WithBinding(ps, f, name, cls);
            IndexOfProperty(r, name) < |r| && FacetOf(r[IndexOfProperty(r, name)], f) == Some(cls)
  {
    var r := WithBinding(ps, f, name, cls);
    var k := IndexOfProperty(ps, name);
    if k < |ps| {
      BindingKeeps(ps, f, name, cls);
      IndexStable(ps, r, name);
    } else {
      IndexOfAppended(ps, SetFacet(Property(name, ObjectProperty, None, None, []), f, cls));
    }
  }

  /** An axiom for another property leaves the first record named `x` where and as it was. */
  lemma OtherBindingKeeps(ps: seq<Property>, f: Facet, name: string, cls: string, x: string)
    requires x != name && IndexOfProperty(ps, x) < |ps|
    ensures var r := WithBinding(ps, f, name, cls);
            IndexOfProperty(r, x) == IndexOfProperty(ps, x) && r[IndexOfProperty(ps, x)] == ps[IndexOfProperty(ps, x)]
  {
    var r := WithBinding(ps, f, name, cls);
    BindingKeeps(ps, f, name, cls);
    IndexStable(ps, r, x);
  }

  lemma {:induction false} BindingsKeep(ps: seq<Property>, f: Facet, bs: seq<(string, string)>)
    ensures Keeps(ps, WithBindings(ps, f, bs), f)
  {
    if bs != [] {
      var n := |bs| - 1;
      var t := WithBindings(ps, f, bs[..n]);
      BindingsKeep(ps, f, bs[..n]);
      BindingKeeps(t, f, bs[n].0, bs[n].1);
      KeepsTrans(ps, t, WithBindings(ps, f, bs), f);
    }
  }

  /** The last axiom for a property decides its field on the first record with that name. */
  lemma {:induction false} BindingsRecorded(ps: seq<Property>, f: Facet, bs: seq<(string, string)>, i: nat)
    requires i < |bs| && forall j :: i < j < |bs| ==> bs[j].0 != bs[i].0
    ensures var r := WithBindings(ps, f, bs);
            IndexOfProperty(r, bs[i].0) < |r| && FacetOf(r[IndexOfProperty(r, bs[i].0)], f) == Some(bs[i].1)
  {
    var n := |bs| - 1;
    var init := bs[..n];
    var t := WithBindings(ps, f, init);
    assert WithBindings(ps, f, bs) == WithBinding(t, f, bs[n].0, bs[n].1);
    if i == n {
      BindingRecorded(t, f, bs[n].0, bs[n].1);
    } else {
      assert init[i] == bs[i];
      assert forall j :: i < j < n ==> init[j] == bs[j];
      BindingsRecorded(ps, f, init, i);
      OtherBindingKeeps(t, f, bs[n].0, bs[n].1, bs[i].0);
    }
  }

  /**
   * A record that no axiom finds first (a later record with the name of an earlier one, or a
   * record whose name no axiom carries) comes through a run of axioms unchanged.
   */
  predicate Untouched(ps: seq<Property>, bs: seq<(string, string)>, m: nat)
    requires m < |ps|
  {
    IndexOfProperty(ps, ps[m].name) < m || forall j :: 0 <= j < |bs| ==> bs[j].0 != ps[m].name
  }

  /** One step of `BindingsUntouched`: an axiom that does not find record `m` first leaves it. */
  lemma UntouchedStep(ps: seq<Property>, t: seq<Property>, f: Facet, name: string, cls: string, m: nat)
    requires Keeps(ps, t, f) && m < |ps| && t[m] == ps[m]
    requires IndexOfProperty(ps, ps[m].name) < m || name != ps[m].name
    ensures m < |WithBinding(t, f, name, cls)| && WithBinding(t, f, name, cls)[m] == ps[m]
  {
    if IndexOfProperty(ps, ps[m].name) < m {
      IndexStable(ps, t, ps[m].name);
    }
    assert IndexOfProperty(t, name) != m;
    BindingShape(t, f, name, cls);
  }

  lemma {:induction false} BindingsUntouched(ps: seq<Property>, f: Facet, bs: seq<(string, string)>, m: nat)
    requires m < |ps| && Untouched(ps, bs, m)
    ensures m < |WithBindings(ps, f, bs)| && WithBindings(ps, f, bs)[m] == ps[m]
  {
    if bs != [] {
      var n := |bs| - 1;
      var init := bs[..n];
      assert forall j :: 0 <= j < n ==> init[j] == bs[j];
      BindingsUntouched(ps, f, init, m);
      BindingsKeep(ps, f, init);
      var t := WithBindings(ps, f, init);
      assert WithBindings(ps, f, bs) == WithBinding(t, f, bs[n].0, bs[n].1);
      UntouchedStep(ps, t, f, bs[n].0, bs[n].1, m);
    }
  }

  /**
   * A declared record with the name of an earlier declared record keeps its domain and range in
   * the final list: of an object property fanned out to domains [A, B], a domain axiom for C
   * changes only the first copy, giving [C, B].
   */
  lemma ShadowedRecordKept(doc: Document, rdfs: string, m: nat)
    requires var d := DeclaredProperties(doc, rdfs); m < |d| && IndexOfProperty(d, d[m].name) < m
    ensures var d := DeclaredProperties(doc, rdfs); var pl := PropertyList(doc, rdfs);
            m < |pl| && pl[m] == d[m]
  {
    var d := DeclaredProperties(doc, rdfs);
    var ds := AxiomBindings(doc.domainAxioms);
    var rs := AxiomBindings(doc.rangeAxioms);
    var w := WithBindings(d, DomainFacet, ds);
    BindingsUntouched(d, DomainFacet, ds, m);
    BindingsKeep(d, DomainFacet, ds);
    IndexStable(d, w, d[m].name);
    BindingsUntouched(w, RangeFacet, rs, m);
    var a := AxiomProperties(doc, rdfs);
    assert PropertyList(doc, rdfs)[m] == a[m];
  }

  /** The fan-out example: a domain axiom for C on copies with domains A and B gives C and B. */
  lemma FirstCopyOnly()
    ensures var pa := Property("treats", ObjectProperty, Some("A"), Some("X"), []);
            var pb := Property("treats", ObjectProperty, Some("B"), Some("X"), []);
            WithBinding([pa, pb], DomainFacet, "treats", "C") == [pa.(domain := Some("C")), pb]
  {
    var pa := Property("treats", ObjectProperty, Some("A"), Some("X"), []);
    var pb := Property("treats", ObjectProperty, Some("B"), Some("X"), []);
    assert IndexOfProperty([pa, pb], "treats") == 0;
  }

  /** Appending records leaves the first index of a name already present where it was. */
  lemma IndexUnderAppend(ps: seq<Property>, more: seq<Property>, name: string)
    requires IndexOfProperty(ps, name) < |ps|
    ensures IndexOfProperty(ps + more, name) == IndexOfProperty(ps, name)
  {
    assert forall m :: 0 <= m < |ps| ==> (ps + more)[m] == ps[m];
    IndexStable(ps, ps + more, name);
  }

  /**
   * In the final list, the last owl:ObjectPropertyDomain axiom for a property gives the
   * domain of the first record with that name; the later range axioms and key properties
   * do not disturb it.
   */
  lemma DomainAxiomTakesEffect(doc: Document, rdfs: string, i: nat)
    requires var bs := AxiomBindings(doc.domainAxioms); i < |bs| && forall j :: i < j < |bs| ==> bs[j].0 != bs[i].0
    ensures var x := AxiomBindings(doc.domainAxioms)[i];
            var pl := PropertyList(doc, rdfs);
            IndexOfProperty(pl, x.0) < |pl| && pl[IndexOfProperty(pl, x.0)].domain == Some(x.1)
  {
    var bs := AxiomBindings(doc.domainAxioms);
    var x := bs[i];
    var w := WithBindings(DeclaredProperties(doc, rdfs), DomainFacet, bs);
    BindingsRecorded(DeclaredProperties(doc, rdfs), DomainFacet, bs, i);
    var a := AxiomProperties(doc, rdfs);
    BindingsKeep(w, RangeFacet, AxiomBindings(doc.rangeAxioms));
    IndexStable(w, a, x.0);
    IndexUnderAppend(a, KeyPropertiesOf(doc.classElems), x.0);
  }

  /** In the final list, the last owl:ObjectPropertyRange axiom for a property gives the range of the first record with that name. */
  lemma RangeAxiomTakesEffect(doc: Document, rdfs: string, i: nat)
    requires var bs := AxiomBindings(doc.rangeAxioms); i < |bs| && forall j :: i < j < |bs| ==> bs[j].0 != bs[i].0
    ensures var x := AxiomBindings(doc.rangeAxioms)[i];
            var pl := PropertyList(doc, rdfs);
            IndexOfProperty(pl, x.0) < |pl| && pl[IndexOfProperty(pl, x.0)].range == Some(x.1)
  {
    var bs := AxiomBindings(doc.rangeAxioms);
    var withDomains := WithBindings(DeclaredProperties(doc, rdfs), DomainFacet, AxiomBindings(doc.domainAxioms));
    BindingsRecorded(withDomains, RangeFacet, bs, i);
    IndexUnderAppend(AxiomProperties(doc, rdfs), KeyPropertiesOf(doc.classElems), bs[i].0);
  }

  /** The axioms never remove, reorder, rename or retype a declared record, nor touch its annotations. */
  lemma AxiomsKeepDeclared(doc: Document, rdfs: string)
    ensures var d := DeclaredProperties(doc, rdfs);
            var pl := PropertyList(doc, rdfs);
            |d| <= |pl| &&
            forall m :: 0 <= m < |d| ==>
              pl[m].name == d[m].name && pl[m].kind == d[m].kind && pl[m].annotations == d[m].annotations
  {
    var d := DeclaredProperties(doc, rdfs);
    var w := WithBindings(d, DomainFacet, AxiomBindings(doc.domainAxioms));
    var a := AxiomProperties(doc, rdfs);
    BindingsKeep(d, DomainFacet, AxiomBindings(doc.domainAxioms));
    BindingsKeep(w, RangeFacet, AxiomBindings(doc.rangeAxioms));
    assert forall m :: 0 <= m < |a| ==> PropertyList(doc, rdfs)[m] == a[m];
  }

  // ---------------------------------------------------------------------------
  // owl:hasKey data properties

  /** A well-formed key record: a named data property of the class, with range String and no annotations. */
  predicate KeyRecord(e: Property)
  {
    e.name != "" && e.kind == DataProperty && e.domain.Some? && e.range == Some(KeyRange) && e.annotations == []
  }

  lemma {:induction false} KeyEntriesShape(cls: string, iris: seq<Option<string>>)
    ensures |KeyEntries(cls, iris)| <= |iris|
    ensures forall k :: 0 <= k < |KeyEntries(cls, iris)| ==>
              KeyRecord(KeyEntries(cls, iris)[k]) && KeyEntries(cls, iris)[k].domain == Some(cls)
  {
    if iris != [] {
      KeyEntriesShape(cls, iris[..|iris| - 1]);
    }
  }

  /** Every key-derived record is a String-valued data property with a domain. */
  lemma {:induction false} KeyPropertiesShape(cs: seq<ClassElem>)
    ensures forall k :: 0 <= k < |KeyPropertiesOf(cs)| ==> KeyRecord(KeyPropertiesOf(cs)[k])
  {
    if cs != [] {
      var c := cs[|cs| - 1];
      KeyPropertiesShape(cs[..|cs| - 1]);
      var id := Or(c.about, c.id);
      if Truthy(id) {
        KeyEntriesShape(LocalNameOf(id), c.keyProperties);
      }
    }
  }
}
