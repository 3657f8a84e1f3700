/**
 * The parsed ontology document as the converter's element queries see it. Each field
 * of `Document` holds, in document order, the elements that one query returns, with
 * the attributes and children the converter reads from them; an attribute, a child or
 * a text that is missing is `None`.
 */
module Document {
  import opened Common

  /** An element of which only the `IRI` attribute is read (owl:AnnotationProperty, owl:ObjectProperty, ...). */
  datatype IriElem = IriElem(iri: Option<string>)

  /** An element of which only the text is read (rdfs:comment, owl:Literal, rdf:first). */
  datatype TextElem = TextElem(text: Option<string>)

  /** An owl:Annotation child: its owl:AnnotationProperty and owl:Literal children. */
  datatype AnnotationElem = AnnotationElem(property: Option<IriElem>, literal: Option<TextElem>)

  /** The annotation-bearing children of an element: its owl:Annotation and its rdfs:comment children. */
  datatype Annotated = Annotated(annotations: seq<AnnotationElem>, comments: seq<TextElem>)

  /** An owl:Class child of another element, with its rdf:about and IRI attributes. */
  datatype ClassRef = ClassRef(about: Option<string>, iri: Option<string>)

  /** An rdfs:subClassOf or owl:equivalentClass child: its rdf:resource and its owl:Class children. */
  datatype RefElem = RefElem(resource: Option<string>, nested: seq<ClassRef>)

  /** An owl:Class or rdfs:Class element. */
  datatype ClassElem = ClassElem(
    about: Option<string>,
    id: Option<string>,
    annotated: Annotated,
    subClassOf: seq<RefElem>,
    equivalentClass: seq<RefElem>,
    /** the IRI of each owl:hasKey/owl:DataProperty child */
    keyProperties: seq<Option<string>>)

  /** An owl:SubClassOf or owl:EquivalentClasses axiom: its owl:Class children. */
  datatype ClassAxiom = ClassAxiom(classes: seq<ClassRef>)

  /** The rdf:type, rdf:about, rdf:subject, rdf:predicate and rdf:object attributes of an element. */
  datatype RdfElem = RdfElem(
    rdfType: Option<string>,
    about: Option<string>,
    rdfSubject: Option<string>,
    rdfPredicate: Option<string>,
    rdfObject: Option<string>)

  /**
   * An rdfs:domain child of an owl:ObjectProperty: its rdf:resource, whether it holds an
   * owl:Class/owl:unionOf, and the rdf:about of each rdf:Description below it.
   */
  datatype DomainElem = DomainElem(resource: Option<string>, hasUnionOf: bool, descriptions: seq<Option<string>>)

  /** An owl:ObjectProperty element; `ranges` holds the rdf:resource of each rdfs:range child. */
  datatype ObjectPropertyElem = ObjectPropertyElem(
    about: Option<string>,
    id: Option<string>,
    annotated: Annotated,
    domains: seq<DomainElem>,
    ranges: seq<Option<string>>)

  /** An owl:DatatypeProperty element, with the rdf:resource of each rdfs:domain and rdfs:range child. */
  datatype DatatypePropertyElem = DatatypePropertyElem(
    about: Option<string>,
    id: Option<string>,
    annotated: Annotated,
    domains: seq<Option<string>>,
    ranges: seq<Option<string>>)

  /** An owl:ObjectPropertyDomain or owl:ObjectPropertyRange axiom: its owl:ObjectProperty and owl:Class children. */
  datatype PropertyAxiom = PropertyAxiom(property: Option<IriElem>, cls: Option<IriElem>)

  /** A node of an RDF collection: its rdf:first child and its rdf:rest child. */
  datatype ListNode = ListNode(first: Option<TextElem>, rest: Option<RestElem>)

  /** An rdf:rest element: its rdf:resource and the rdf:Description node it holds. */
  datatype RestElem = RestElem(resource: Option<string>, next: Option<ListNode>)

  /** An owl:oneOf element: the rdf:Description node that heads its collection. */
  datatype OneOfElem = OneOfElem(head: Option<ListNode>)

  /**
   * An rdf:Description element: its rdf:about, the owl:equivalentClass/rdfs:Datatype/owl:oneOf
   * found below it, and its rdfs:comment child.
   */
  datatype DescriptionElem = DescriptionElem(about: Option<string>, oneOf: Option<OneOfElem>, comment: Option<TextElem>)

  datatype Document = Document(
    /** the attributes of the root element, in order */
    rootAttributes: seq<(string, string)>,
    /** every rdf:Description */
    descriptions: seq<DescriptionElem>,
    /** every owl:Class, then every rdfs:Class */
    classElems: seq<ClassElem>,
    /** every owl:SubClassOf */
    subClassAxioms: seq<ClassAxiom>,
    /** every owl:EquivalentClasses */
    equivalenceAxioms: seq<ClassAxiom>,
    /** every element below the root */
    rdfElems: seq<RdfElem>,
    /** every owl:ObjectProperty */
    objectProperties: seq<ObjectPropertyElem>,
    /** every owl:DatatypeProperty */
    datatypeProperties: seq<DatatypePropertyElem>,
    /** every owl:ObjectPropertyDomain */
    domainAxioms: seq<PropertyAxiom>,
    /** every owl:ObjectPropertyRange */
    rangeAxioms: seq<PropertyAxiom>)
}
