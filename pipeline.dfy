/**
 * The conversion (`convert_owl2plantuml`) once the document is parsed and before the text
 * is written: namespaces, the four extractions, the two derivations and the rendering.
 */
module Pipeline {
  import opened Common
  import opened Names
  import opened Namespaces
  import opened Document
  import opened Classes
  import opened Properties
  import opened Enumerations
  import opened EnumRefs
  import opened Relations
  import opened Render

  /** The diagram text of a parsed document. */
  function ConvertedText(doc: Document): string
  {
    var ns := WithDefaults(Declared(doc.rootAttributes));
    var cs := ClassTable(doc);
    var ps := PropertyList(doc, Lookup(ns, "rdfs", RdfsUri));
    Diagram(cs, ps, RelationList(cs, ps), EnumerationsOf(doc.descriptions), EnumRefsOf(ps))
  }

  method ConvertOwlToPlantUml(doc: Document) returns (text: string)
    ensures text == ConvertedText(doc)
  {
    var namespaces := ParseNamespaces(doc.rootAttributes);
    var classes := ExtractClasses(doc);
    var properties := ExtractProperties(doc, namespaces);
    var enumerations := ExtractEnumerations(doc.descriptions);
    var enumReferences := ExtractEnumReferences(properties);
    var relations := ExtractRelations(classes, properties);
    text := GeneratePlantUml(classes, properties, relations, enumerations, enumReferences);
  }

  /**
   * The converted text is framed by the header and "@enduml", and shows a block for every
   * extracted class and every extracted enumeration.
   */
  lemma ConvertedShowsModel(doc: Document)
    ensures var ns := WithDefaults(Declared(doc.rootAttributes));
      var cs := ClassTable(doc);
      var ps := PropertyList(doc, Lookup(ns, "rdfs", RdfsUri));
      var es := EnumerationsOf(doc.descriptions);
      StartsWith(ConvertedText(doc), Header) && EndsWith(ConvertedText(doc), Footer) &&
      (forall i :: 0 <= i < |cs| ==> Contains(ConvertedText(doc), ClassBlockWith(cs[i], AttributesOf(ps, cs[i].name)))) &&
      (forall i :: 0 <= i < |es| ==> Contains(ConvertedText(doc), EnumBlock(es[i])))
  {
    var ns := WithDefaults(Declared(doc.rootAttributes));
    var cs := ClassTable(doc);
    var ps := PropertyList(doc, Lookup(ns, "rdfs", RdfsUri));
    var es := EnumerationsOf(doc.descriptions);
    DiagramFrame(cs, ps, RelationList(cs, ps), es, EnumRefsOf(ps));
    DiagramShowsBlocks(cs, ps, RelationList(cs, ps), es, EnumRefsOf(ps));
  }

  /** No relation in the converted model's relation list has "Unknown" at either end. */
  lemma ConvertedRelationsResolved(doc: Document)
    ensures var ns := WithDefaults(Declared(doc.rootAttributes));
      var cs := ClassTable(doc);
      var rels := RelationList(cs, PropertyList(doc, Lookup(ns, "rdfs", RdfsUri)));
      forall k :: 0 <= k < |rels| ==> rels[k].from != Unknown && rels[k].to != Unknown
  {
    var ns := WithDefaults(Declared(doc.rootAttributes));
    var cs := ClassTable(doc);
    NoUnknownEndpoints(CandidateRelations(cs, PropertyList(doc, Lookup(ns, "rdfs", RdfsUri))));
  }
}
