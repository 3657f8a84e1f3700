/**
 * Property extraction (`extract_properties`). Each owl:ObjectProperty fans out into one
 * record per domain; each owl:DatatypeProperty gives one record whose last domain and last
 * range win; an element typed owl:DatatypeProperty gives one record completed by the
 * reified statements about it; owl:ObjectPropertyDomain and owl:ObjectPropertyRange axioms
 * then update the first record with their property's name, or append one; last, every
 * owl:hasKey/owl:DataProperty of a class gives a String-valued data property.
 */
module Properties {
  import opened Common
  import opened Names
  import opened Document
  import opened Annotations
  import opened Namespaces

  /** The value of rdf:type that marks an element as a data property. */
  const DatatypePropertyUri: string := "http://www.w3.org/2002/07/owl#DatatypeProperty"

  /** The range a key property of a class is given. */
  const KeyRange: string := "String"

  datatype Kind = ObjectProperty | DataProperty

  /** One property record: `domain` and `range` are None where nothing was found. */
  datatype Property = Property(
    name: string,
    kind: Kind,
    domain: Option<string>,
    range: Option<string>,
    annotations: seq<Annotation>)

  /** The name of a property element: the local name of its rdf:about, else of its rdf:ID. */
  function PropertyName(about: Option<string>, id: Option<string>): string
  {
    LocalNameOf(Or(about, id))
  }

  // ---------------------------------------------------------------------------
  // owl:ObjectProperty

  /** The local names of the truthy resources, in order. */
  function TruthyNames(os: seq<Option<string>>): seq<string>
  {
    if os == [] then []
    else
      var o := os[|os| - 1];
      TruthyNames(os[..|os| - 1]) + (if Truthy(o) then [LocalNameOf(o)] else [])
  }

  /** One rdfs:domain child: its rdf:resource, else the rdf:Description classes of its owl:unionOf. */
  function DomainNames(d: DomainElem): seq<string>
  {
    if Truthy(d.resource) then [LocalNameOf(d.resource)]
    else if d.hasUnionOf then TruthyNames(d.descriptions)
    else []
  }

  /** The domains of all rdfs:domain children, in order. */
  function DomainsOf(ds: seq<DomainElem>): seq<string>
  {
    if ds == [] then [] else DomainsOf(ds[..|ds| - 1]) + DomainNames(ds[|ds| - 1])
  }

  /** `ranges[0] if ranges else None` */
  function FirstOf(xs: seq<string>): (r: Option<string>)
    ensures r.Some? <==> xs != []
  {
    if xs == [] then None else Some(xs[0])
  }

  /** One copy of `base` per domain, in order, each with that domain. */
  function Fanned(base: Property, domains: seq<string>): seq<Property>
  {
    if domains == [] then []
    else Fanned(base, domains[..|domains| - 1]) + [base.(domain := Some(domains[|domains| - 1]))]
  }

  /** The record an object property starts from: no domain, its first range, its annotations. */
  function ObjectBase(p: ObjectPropertyElem): Property
  {
    Property(PropertyName(p.about, p.id), ObjectProperty, None, FirstOf(TruthyNames(p.ranges)), AnnotationsOf(p.annotated))
  }

  /** The records of one owl:ObjectProperty: one per domain, or one without a domain when it has none. */
  function ObjectEntries(p: ObjectPropertyElem): seq<Property>
  {
    var domains := DomainsOf(p.domains);
    if domains == [] then [ObjectBase(p)] else Fanned(ObjectBase(p), domains)
  }

  function ObjectPropertiesOf(ps: seq<ObjectPropertyElem>): seq<Property>
  {
    if ps == [] then [] else ObjectPropertiesOf(ps[..|ps| - 1]) + ObjectEntries(ps[|ps| - 1])
  }

  method CollectTruthyNames(os: seq<Option<string>>) returns (names: seq<string>)
    ensures names == TruthyNames(os)
  {
    names := [];
    for i := 0 to |os|
      invariant names == TruthyNames(os[..i])
    {
      assert os[..i + 1][..i] == os[..i];
      var resource := os[i];
      if resource.Some? && resource.value != "" {
        names := names + [LocalNameOf(resource)];
      }
    }
    assert os[..|os|] == os;
  }

  method CollectDomains(ds: seq<DomainElem>) returns (domains: seq<string>)
    ensures domains == DomainsOf(ds)
  {
    domains := [];
    for i := 0 to |ds|
      invariant domains == DomainsOf(ds[..i])
    {
      assert ds[..i + 1][..i] == ds[..i];
      var resource := ds[i].resource;
      if resource.Some? && resource.value != "" {
        domains := domains + [LocalNameOf(resource)];
      } else if ds[i].hasUnionOf {
        var members := CollectTruthyNames(ds[i].descriptions);
        domains := domains + members;
      } else {
        assert domains + [] == domains;
      }
    }
    assert ds[..|ds|] == ds;
  }

  /** The `for domain in domains` loop: a copy of `info` per domain, appended to `props0`. */
  method FanOut(props0: seq<Property>, info: Property, domains: seq<string>) returns (props: seq<Property>)
    ensures props == props0 + Fanned(info, domains)
  {
    props := props0;
    for k := 0 to |domains|
      invariant props == props0 + Fanned(info, domains[..k])
    {
      assert domains[..k + 1][..k] == domains[..k];
      props := props + [info.(domain := Some(domains[k]))];
    }
    assert domains[..|domains|] == domains;
  }

  method ExtractObjectProperties(ps: seq<ObjectPropertyElem>) returns (props: seq<Property>)
    ensures props == ObjectPropertiesOf(ps)
  {
    props := [];
    for i := 0 to |ps|
      invariant props == ObjectPropertiesOf(ps[..i])
    {
      assert ps[..i + 1][..i] == ps[..i];
      var p := ps[i];
      var anns := ExtractAnnotations(p.annotated);
      var domains := CollectDomains(p.domains);
      var ranges := CollectTruthyNames(p.ranges);
      var range := if ranges != [] then Some(ranges[0]) else None;
      var info := Property(PropertyName(p.about, p.id), ObjectProperty, None, range, anns);
      assert info == ObjectBase(p);
      if domains != [] {
        props := FanOut(props, info, domains);
      } else {
        props := props + [info];
      }
    }
    assert ps[..|ps|] == ps;
  }

  // ---------------------------------------------------------------------------
  // owl:DatatypeProperty

  /** The local name of the last resource (an absent one names "Unknown"), or None when there is none. */
  function LastLocalName(rs: seq<Option<string>>): (r: Option<string>)
    ensures r.Some? <==> rs != []
  {
    if rs == [] then None else Some(LocalNameOf(rs[|rs| - 1]))
  }

  /** The record of one owl:DatatypeProperty. */
  function DatatypeEntry(p: DatatypePropertyElem): Property
  {
    Property(PropertyName(p.about, p.id), DataProperty, LastLocalName(p.domains), LastLocalName(p.ranges), AnnotationsOf(p.annotated))
  }

  function DatatypePropertiesOf(ps: seq<DatatypePropertyElem>): (r: seq<Property>)
    ensures |r| == |ps|
  {
    if ps == [] then [] else DatatypePropertiesOf(ps[..|ps| - 1]) + [DatatypeEntry(ps[|ps| - 1])]
  }

  /** The loop that assigns each resource in turn: the last one wins. */
  method LastResourceName(rs: seq<Option<string>>) returns (r: Option<string>)
    ensures r == LastLocalName(rs)
  {
    r := None;
    for i := 0 to |rs|
      invariant r == LastLocalName(rs[..i])
    {
      r := Some(LocalNameOf(rs[i]));
    }
    assert rs[..|rs|] == rs;
  }

  method ExtractDatatypeProperties(ps: seq<DatatypePropertyElem>) returns (props: seq<Property>)
    ensures props == DatatypePropertiesOf(ps)
  {
    props := [];
    for i := 0 to |ps|
      invariant props == DatatypePropertiesOf(ps[..i])
    {
      assert ps[..i + 1][..i] == ps[..i];
      var p := ps[i];
      var anns := ExtractAnnotations(p.annotated);
      var domain := LastResourceName(p.domains);
      var range := LastResourceName(p.ranges);
      props := props + [Property(PropertyName(p.about, p.id), DataProperty, domain, range, anns)];
    }
    assert ps[..|ps|] == ps;
  }

  // ---------------------------------------------------------------------------
  // Elements typed owl:DatatypeProperty, completed by reified statements

  /** The predicate a statement must carry to set the domain: the rdfs namespace in braces, then "domain". */
  function DomainPredicate(rdfs: string): string
  {
    "{" + rdfs + "}domain"
  }

  function RangePredicate(rdfs: string): string
  {
    "{" + rdfs + "}range"
  }

  /** One statement about the property: a domain or a range predicate sets that field to its object's local name. */
  function StatementStep(acc: Property, st: RdfElem, rdfs: string): Property
  {
    if st.rdfPredicate == Some(DomainPredicate(rdfs)) then acc.(domain := Some(LocalNameOf(st.rdfObject)))
    else if st.rdfPredicate == Some(RangePredicate(rdfs)) then acc.(range := Some(LocalNameOf(st.rdfObject)))
    else acc
  }

  /** The statements whose rdf:subject is `subject`, applied in document order. */
  function Statements(acc: Property, subject: string, es: seq<RdfElem>, rdfs: string): Property
  {
    if es == [] then acc
    else
      var prev := Statements(acc, subject, es[..|es| - 1], rdfs);
      var st := es[|es| - 1];
      if st.rdfSubject == Some(subject) then StatementStep(prev, st, rdfs) else prev
  }

  /**
   * The record an element yields when it is typed owl:DatatypeProperty and its rdf:about has
   * a non-empty local name. Its statements are looked up by the text the about value shows,
   * "None" when it is absent.
   */
  function ReifiedEntry(e: RdfElem, all: seq<RdfElem>, rdfs: string): Option<Property>
  {
    if e.rdfType != Some(DatatypePropertyUri) then None
    else
      var name := LocalNameOf(e.about);
      if name == "" then None
      else Some(Statements(Property(name, DataProperty, None, None, []), Shown(e.about), all, rdfs))
  }

  function ReifiedPropertiesOf(typed: seq<RdfElem>, all: seq<RdfElem>, rdfs: string): (r: seq<Property>)
    ensures |r| <= |typed|
  {
    if typed == [] then []
    else
      var p := ReifiedEntry(typed[|typed| - 1], all, rdfs);
      ReifiedPropertiesOf(typed[..|typed| - 1], all, rdfs) + (if p.Some? then [p.value] else [])
  }

  method ApplyStatements(acc: Property, subject: string, es: seq<RdfElem>, rdfs: string) returns (info: Property)
    ensures info == Statements(acc, subject, es, rdfs)
  {
    info := acc;
    for j := 0 to |es|
      invariant info == Statements(acc, subject, es[..j], rdfs)
    {
      assert es[..j + 1][..j] == es[..j];
      var stmt := es[j];
      if stmt.rdfSubject == Some(subject) {
        var pred := stmt.rdfPredicate;
        if pred == Some("{" + rdfs + "}domain") {
          info := info.(domain := Some(LocalNameOf(stmt.rdfObject)));
        } else if pred == Some("{" + rdfs + "}range") {
          info := info.(range := Some(LocalNameOf(stmt.rdfObject)));
        }
      }
    }
    assert es[..|es|] == es;
  }

  method ExtractReifiedProperties(es: seq<RdfElem>, rdfs: string) returns (props: seq<Property>)
    ensures props == ReifiedPropertiesOf(es, es, rdfs)
  {
    props := [];
    for i := 0 to |es|
      invariant props == ReifiedPropertiesOf(es[..i], es, rdfs)
    {
      assert es[..i + 1][..i] == es[..i];
      var prop := es[i];
      if prop.rdfType == Some(DatatypePropertyUri) {
        var name := LocalNameOf(prop.about);
        if name != "" {
          var info := ApplyStatements(Property(name, DataProperty, None, None, []), Shown(prop.about), es, rdfs);
          props := props + [info];
        }
      }
    }
    assert es[..|es|] == es;
  }

  // ---------------------------------------------------------------------------
  // owl:ObjectPropertyDomain and owl:ObjectPropertyRange axioms

  /** Which of the two fields an axiom sets. */
  datatype Facet = DomainFacet | RangeFacet

  /** The (property, class) names of an axiom that has both an owl:ObjectProperty and an owl:Class child. */
  function AxiomBinding(a: PropertyAxiom): Option<(string, string)>
  {
    if a.property.Some? && a.cls.Some? then Some((LocalNameOf(a.property.value.iri), LocalNameOf(a.cls.value.iri)))
    else None
  }

  function AxiomBindings(axs: seq<PropertyAxiom>): (r: seq<(string, string)>)
    ensures |r| <= |axs|
  {
    if axs == [] then []
    else
      var b := AxiomBinding(axs[|axs| - 1]);
      AxiomBindings(axs[..|axs| - 1]) + (if b.Some? then [b.value] else [])
  }

  /** `next(p for p in properties if p['name'] == name)`: the first index with that name, or `|ps|`. */
  function IndexOfProperty(ps: seq<Property>, name: string): (k: nat)
    ensures k <= |ps|
    ensures k < |ps| ==> ps[k].name == name
    ensures forall j :: 0 <= j < k ==> ps[j].name != name
  {
    if ps == [] then 0
    else if ps[0].name == name then 0
    else 1 + IndexOfProperty(ps[1..], name)
  }

  method FindProperty(ps: seq<Property>, name: string) returns (k: nat)
    ensures k == IndexOfProperty(ps, name)
  {
    k := 0;
    while k < |ps| && ps[k].name != name
      invariant k <= |ps|
      invariant forall j :: 0 <= j < k ==> ps[j].name != name
    {
      k := k + 1;
    }
  }

  /** The value of the field an axiom sets. */
  function FacetOf(p: Property, f: Facet): Option<string>
  {
    if f == DomainFacet then p.domain else p.range
  }

  function SetFacet(p: Property, f: Facet, cls: string): Property
  {
    if f == DomainFacet then p.(domain := Some(cls)) else p.(range := Some(cls))
  }

  /** One axiom: set the field on the first record with the name, or append an object property with only that field. */
  function WithBinding(ps: seq<Property>, f: Facet, name: string, cls: string): seq<Property>
  {
    var k := IndexOfProperty(ps, name);
    if k < |ps| then ps[k := SetFacet(ps[k], f, cls)]
    else ps + [SetFacet(Property(name, ObjectProperty, None, None, []), f, cls)]
  }

  /** The axioms applied one after the other, in order. */
  function WithBindings(ps: seq<Property>, f: Facet, bs: seq<(string, string)>): seq<Property>
  {
    if bs == [] then ps
    else WithBinding(WithBindings(ps, f, bs[..|bs| - 1]), f, bs[|bs| - 1].0, bs[|bs| - 1].1)
  }

  /** The effect of axiom `i` on the records built from the axioms before it. */
  lemma AxiomStep(ps0: seq<Property>, f: Facet, axs: seq<PropertyAxiom>, i: nat)
    requires i < |axs|
    ensures var before := WithBindings(ps0, f, AxiomBindings(axs[..i]));
            var b := AxiomBinding(axs[i]);
            WithBindings(ps0, f, AxiomBindings(axs[..i + 1])) ==
              if b.Some? then WithBinding(before, f, b.value.0, b.value.1) else before
  {
    assert axs[..i + 1][..i] == axs[..i];
    var prior := AxiomBindings(axs[..i]);
    var b := AxiomBinding(axs[i]);
    if b.Some? {
      assert (prior + [b.value])[..|prior|] == prior;
    } else {
      assert prior + [] == prior;
    }
  }

  method ApplyAxioms(ps0: seq<Property>, f: Facet, axs: seq<PropertyAxiom>) returns (props: seq<Property>)
    ensures props == WithBindings(ps0, f, AxiomBindings(axs))
  {
    props := ps0;
    for i := 0 to |axs|
      invariant props == WithBindings(ps0, f, AxiomBindings(axs[..i]))
    {
      AxiomStep(ps0, f, axs, i);
      var propElem := axs[i].property;
      var classElem := axs[i].cls;
      if propElem.Some? && classElem.Some? {
        var propName := LocalNameOf(propElem.value.iri);
        var cls := LocalNameOf(classElem.value.iri);
        var k := FindProperty(props, propName);
        if k < |props| {
          props := props[k := SetFacet(props[k], f, cls)];
        } else {
          props := props + [SetFacet(Property(propName, ObjectProperty, None, None, []), f, cls)];
        }
      }
    }
    assert axs[..|axs|] == axs;
  }

  // ---------------------------------------------------------------------------
  // owl:hasKey data properties

  /** The key properties of class `cls`: one String-valued data property per key with a non-empty local name. */
  function KeyEntries(cls: string, iris: seq<Option<string>>): seq<Property>
  {
    if iris == [] then []
    else
      var name := LocalNameOf(iris[|iris| - 1]);
      KeyEntries(cls, iris[..|iris| - 1]) + (if name != "" then [Property(name, DataProperty, Some(cls), Some(KeyRange), [])] else [])
  }

  /** The key properties of a class element that has an rdf:about or rdf:ID. */
  function ClassKeyEntries(c: ClassElem): seq<Property>
  {
    var id := Or(c.about, c.id);
    if Truthy(id) then KeyEntries(LocalNameOf(id), c.keyProperties) else []
  }

  function KeyPropertiesOf(cs: seq<ClassElem>): seq<Property>
  {
    if cs == [] then [] else KeyPropertiesOf(cs[..|cs| - 1]) + ClassKeyEntries(cs[|cs| - 1])
  }

  /** Key `j` adds its record, when its local name is non-empty. */
  lemma KeyEntriesStep(cls: string, iris: seq<Option<string>>, j: nat)
    requires j < |iris|
    ensures var name := LocalNameOf(iris[j]);
            KeyEntries(cls, iris[..j + 1]) ==
              KeyEntries(cls, iris[..j]) + (if name != "" then [Property(name, DataProperty, Some(cls), Some(KeyRange), [])] else [])
  {
    assert iris[..j + 1][..j] == iris[..j];
  }

  method CollectKeyEntries(props0: seq<Property>, cls: string, iris: seq<Option<string>>) returns (props: seq<Property>)
    ensures props == props0 + KeyEntries(cls, iris)
  {
    props := props0;
    for j := 0 to |iris|
      invariant props == props0 + KeyEntries(cls, iris[..j])
    {
      KeyEntriesStep(cls, iris, j);
      var propName := LocalNameOf(iris[j]);
      if propName != "" {
        var entry := Property(propName, DataProperty, Some(cls), Some("String"), []);
        assert props0 + KeyEntries(cls, iris[..j + 1]) == (props0 + KeyEntries(cls, iris[..j])) + [entry];
        props := props + [entry];
      } else {
        assert KeyEntries(cls, iris[..j + 1]) == KeyEntries(cls, iris[..j]) + [];
      }
    }
    assert iris[..|iris|] == iris;
  }

  /** Class `i` adds its key records. */
  lemma KeyPropertiesStep(cs: seq<ClassElem>, i: nat)
    requires i < |cs|
    ensures KeyPropertiesOf(cs[..i + 1]) == KeyPropertiesOf(cs[..i]) + ClassKeyEntries(cs[i])
  {
    assert cs[..i + 1][..i] == cs[..i];
  }

  /** The body of the class loop: the key records of one class element, appended to `props0`. */
  method AddClassKeys(props0: seq<Property>, cls: ClassElem) returns (props: seq<Property>)
    ensures props == props0 + ClassKeyEntries(cls)
  {
    var classId := Or(cls.about, cls.id);
    if classId.None? || classId.value == "" {
      props := props0;
      assert props0 + [] == props0;
    } else {
      props := CollectKeyEntries(props0, LocalNameOf(classId), cls.keyProperties);
    }
  }

  method ExtractKeyProperties(cs: seq<ClassElem>) returns (props: seq<Property>)
    ensures props == KeyPropertiesOf(cs)
  {
    props := [];
    for i := 0 to |cs|
      invariant props == KeyPropertiesOf(cs[..i])
    {
      KeyPropertiesStep(cs, i);
      props := AddClassKeys(props, cs[i]);
    }
    assert cs[..|cs|] == cs;
  }

  // ---------------------------------------------------------------------------
  // The whole list

  /** The records before the axioms are applied: object, data, then reified data properties. */
  function DeclaredProperties(doc: Document, rdfs: string): seq<Property>
  {
    ObjectPropertiesOf(doc.objectProperties) + DatatypePropertiesOf(doc.datatypeProperties)
      + ReifiedPropertiesOf(doc.rdfElems, doc.rdfElems, rdfs)
  }

  /** The records after the domain and then the range axioms. */
  function AxiomProperties(doc: Document, rdfs: string): seq<Property>
  {
    var withDomains := WithBindings(DeclaredProperties(doc, rdfs), DomainFacet, AxiomBindings(doc.domainAxioms));
    WithBindings(withDomains, RangeFacet, AxiomBindings(doc.rangeAxioms))
  }

  /** extract_properties over the document, reading the rdfs namespace `rdfs`. */
  function PropertyList(doc: Document, rdfs: string): seq<Property>
  {
    AxiomProperties(doc, rdfs) + KeyPropertiesOf(doc.classElems)
  }

  method ExtractProperties(doc: Document, ns: map<string, string>) returns (props: seq<Property>)
    ensures props == PropertyList(doc, Lookup(ns, "rdfs", RdfsUri))
  {
    var rdfs := Lookup(ns, "rdfs", RdfsUri);
    var objects := ExtractObjectProperties(doc.objectProperties);
    var datas := ExtractDatatypeProperties(doc.datatypeProperties);
    var reified := ExtractReifiedProperties(doc.rdfElems, rdfs);
    props := objects + datas + reified;
    props := ApplyAxioms(props, DomainFacet, doc.domainAxioms);
    props := ApplyAxioms(props, RangeFacet, doc.rangeAxioms);
    var keys := ExtractKeyProperties(doc.classElems);
    props := props + keys;
  }
}
