/** Diagram rendering (`generate_plantuml`): the PlantUML text of the extracted model. */
module Render {
  import opened Common
  import opened Names
  import opened Annotations
  import opened Classes
  import opened Properties
  import opened Enumerations
  import opened EnumRefs
  import opened Relations

  /** The fixed opening: theme, title and the legend of the four kinds of line. */
  const Header: string :=
    "@startuml\n\n" +
    "!theme vibrant\n\n" +
    "title EU Cancer Ontology Model\n\n" +
    "legend\n" +
    "  |= Tipo di relazione |= Significato |\n" +
    "  | A <|-- B | B è sottoclasse di A |\n" +
    "  | A --> B | A ha una relazione con B |\n" +
    "  | A .. B : equivalentTo | A è equivalente a B |\n" +
    "  | A --> B : type | A utilizza l'enumerazione B |\n" +
    "endlegend\n\n"

  const Footer: string := "@enduml"

  /** The longest text shown unabridged, and how much of a longer one is kept before "...". */
  const MaxShown: nat := 50
  const KeptPrefix: nat := 47
  /** The type an attribute is shown with when its property has no range. */
  const DefaultAttributeType: string := "String"

  function Truncate(s: string): string
  {
    if |s| > MaxShown then s[..KeptPrefix] + "..." else s
  }

  // ---------------------------------------------------------------------------
  // Enumerations

  function ValueLine(v: string): string
  {
    "  " + v + "\n"
  }

  function ValueLines(vals: seq<string>): string
  {
    if vals == [] then "" else ValueLines(vals[..|vals| - 1]) + ValueLine(vals[|vals| - 1])
  }

  /** The comment section of an enumeration block, present when the comment is non-empty. */
  function CommentSection(comment: Option<string>): string
  {
    if Truthy(comment) then "\n  .. comment ..\n" + ValueLine(Truncate(comment.value)) else ""
  }

  function EnumBlock(e: Enumeration): string
  {
    "enum \"" + e.name + "\" {\n" + ValueLines(e.values) + CommentSection(e.comment) + "}\n\n"
  }

  function EnumBlocks(es: seq<Enumeration>): string
  {
    if es == [] then "" else EnumBlocks(es[..|es| - 1]) + EnumBlock(es[|es| - 1])
  }

  // ---------------------------------------------------------------------------
  // Classes with their attributes and annotations

  /** An attribute line's `{name, type}`. */
  datatype Attribute = Attribute(name: string, typeName: string)

  /** A data property shown as an attribute: one with a domain other than "Unknown". */
  predicate IsAttribute(p: Property)
  {
    p.kind == DataProperty && Truthy(p.domain) && p.domain.value != Unknown
  }

  /** The attribute of a property; a property without a range is typed "String". */
  function AttributeOf(p: Property): Attribute
  {
    Attribute(p.name, if Truthy(p.range) then p.range.value else DefaultAttributeType)
  }

  /** The `class_attributes` entry of a class name: its attributes, in property order. */
  function AttributesOf(ps: seq<Property>, cls: string): seq<Attribute>
  {
    if ps == [] then []
    else
      var p := ps[|ps| - 1];
      AttributesOf(ps[..|ps| - 1], cls) + (if IsAttribute(p) && p.domain.value == cls then [AttributeOf(p)] else [])
  }

  function AttributeLine(a: Attribute): string
  {
    "  +" + a.typeName + " " + a.name + "\n"
  }

  function AttributeLines(attrs: seq<Attribute>): string
  {
    if attrs == [] then "" else AttributeLines(attrs[..|attrs| - 1]) + AttributeLine(attrs[|attrs| - 1])
  }

  /** The text an annotation value shows: abridged when long, `None` when absent. */
  function ShownValue(v: Option<string>): string
  {
    if v.Some? then Truncate(v.value) else "None"
  }

  function AnnotationLines(anns: seq<Annotation>): string
  {
    if anns == [] then ""
    else
      var a := anns[|anns| - 1];
      AnnotationLines(anns[..|anns| - 1]) + ("  .. " + a.property + " ..\n") + ValueLine(ShownValue(a.value))
  }

  /** A class block, given the class's attributes; a blank line parts attributes from annotations. */
  function ClassBlockWith(c: ClassEntity, attrs: seq<Attribute>): string
  {
    "class \"" + c.name + "\" {\n" + AttributeLines(attrs) +
    (if attrs != [] && c.annotations != [] then "\n" else "") +
    AnnotationLines(c.annotations) + "}\n\n"
  }

  function ClassBlocks(cs: Table, ps: seq<Property>): string
  {
    if cs == [] then ""
    else
      var c := cs[|cs| - 1];
      ClassBlocks(cs[..|cs| - 1], ps) + ClassBlockWith(c, AttributesOf(ps, c.name))
  }

  // ---------------------------------------------------------------------------
  // Relations and enumeration references

  function ArrowText(a: Arrow): string
  {
    match a
    case Inherits => "<|--"
    case Associates => "-->"
    case Dotted => ".."
  }

  /**
   * The line of an edge with both ends non-empty: an inheritance arrow without a label; an
   * edge labelled "equivalentTo" dotted; any other with its arrow and its label.
   */
  function RelationLine(r: Relation): string
  {
    if r.from == "" || r.to == "" then ""
    else if r.arrow == Inherits then "\"" + r.from + "\" <|-- \"" + r.to + "\"\n"
    else if r.name == EquivalentToLabel then "\"" + r.from + "\" .. \"" + r.to + "\" : " + r.name + "\n"
    else "\"" + r.from + "\" " + ArrowText(r.arrow) + " \"" + r.to + "\" : " + r.name + "\n"
  }

  function RelationLines(rels: seq<Relation>): string
  {
    if rels == [] then "" else RelationLines(rels[..|rels| - 1]) + RelationLine(rels[|rels| - 1])
  }

  /** `any(enum['name'] == to_enum for enum in enumerations)` */
  function HasEnumeration(es: seq<Enumeration>, name: string): (b: bool)
    ensures b <==> exists k :: 0 <= k < |es| && es[k].name == name
  {
    if es == [] then false else HasEnumeration(es[..|es| - 1], name) || es[|es| - 1].name == name
  }

  function RefText(ref: EnumRef): string
  {
    "\"" + ref.from + "\" --> \"" + ref.to + "\" : " + ref.property + "\n"
  }

  /** The line of an enumeration reference, kept only when an enumeration bears its target's name. */
  function RefLine(ref: EnumRef, es: seq<Enumeration>): string
  {
    if HasEnumeration(es, ref.to) then RefText(ref) else ""
  }

  function RefLines(refs: seq<EnumRef>, es: seq<Enumeration>): string
  {
    if refs == [] then "" else RefLines(refs[..|refs| - 1], es) + RefLine(refs[|refs| - 1], es)
  }

  /** The whole diagram. */
  function Diagram(cs: Table, ps: seq<Property>, rels: seq<Relation>, es: seq<Enumeration>, refs: seq<EnumRef>): string
  {
    Header + EnumBlocks(es) + ClassBlocks(cs, ps) + RelationLines(rels) + RefLines(refs, es) + Footer
  }

  // ---------------------------------------------------------------------------
  // The renderer

  method RenderEnumeration(e: Enumeration) returns (block: string)
    ensures block == EnumBlock(e)
  {
    var values := "";
    for i := 0 to |e.values|
      invariant values == ValueLines(e.values[..i])
    {
      assert e.values[..i + 1][..i] == e.values[..i];
      values := values + ValueLine(e.values[i]);
    }
    assert e.values[..|e.values|] == e.values;
    var comment := "";
    if e.comment.Some? && e.comment.value != "" {
      comment := "\n  .. comment ..\n";
      var shown := e.comment.value;
      if |shown| > 50 {
        shown := shown[..47] + "...";
      }
      comment := comment + ValueLine(shown);
    }
    block := "enum \"" + e.name + "\" {\n" + values + comment + "}\n\n";
  }

  /** `class_attributes`: each domain that has attributes maps to its attributes. */
  method GroupAttributes(ps: seq<Property>) returns (groups: map<string, seq<Attribute>>)
    ensures forall d :: d in groups <==> AttributesOf(ps, d) != []
    ensures forall d :: d in groups ==> groups[d] == AttributesOf(ps, d)
  {
    groups := map[];
    for i := 0 to |ps|
      invariant forall d :: d in groups <==> AttributesOf(ps[..i], d) != []
      invariant forall d :: d in groups ==> groups[d] == AttributesOf(ps[..i], d)
    {
      assert ps[..i + 1][..i] == ps[..i];
      var p := ps[i];
      if p.kind == DataProperty && p.domain.Some? && p.domain.value != "" {
        var domain := p.domain.value;
        if domain != Unknown {
          var rangeType := if p.range.Some? && p.range.value != "" then p.range.value else DefaultAttributeType;
          var prior := if domain in groups then groups[domain] else [];
          groups := groups[domain := prior + [Attribute(p.name, rangeType)]];
        }
      }
    }
    assert ps[..|ps|] == ps;
  }

  method RenderClass(c: ClassEntity, attrs: seq<Attribute>) returns (block: string)
    ensures block == ClassBlockWith(c, attrs)
  {
    var attributes := "";
    for i := 0 to |attrs|
      invariant attributes == AttributeLines(attrs[..i])
    {
      assert attrs[..i + 1][..i] == attrs[..i];
      attributes := attributes + AttributeLine(attrs[i]);
    }
    assert attrs[..|attrs|] == attrs;
    var notes := "";
    for i := 0 to |c.annotations|
      invariant notes == AnnotationLines(c.annotations[..i])
    {
      assert c.annotations[..i + 1][..i] == c.annotations[..i];
      var a := c.annotations[i];
      var value := a.value;
      var shown := if value.Some? then value.value else "None";
      if value.Some? && value.value != "" && |value.value| > 50 {
        shown := value.value[..47] + "...";
      }
      notes := notes + ("  .. " + a.property + " ..\n") + ValueLine(shown);
    }
    assert c.annotations[..|c.annotations|] == c.annotations;
    var gap := if attrs != [] && c.annotations != [] then "\n" else "";
    block := "class \"" + c.name + "\" {\n" + attributes + gap + notes + "}\n\n";
  }

  method RenderClasses(cs: Table, ps: seq<Property>) returns (text: string)
    ensures text == ClassBlocks(cs, ps)
  {
    var groups := GroupAttributes(ps);
    text := "";
    for i := 0 to |cs|
      invariant text == ClassBlocks(cs[..i], ps)
    {
      assert cs[..i + 1][..i] == cs[..i];
      var attrs := if cs[i].name in groups then groups[cs[i].name] else [];
      var block := RenderClass(cs[i], attrs);
      text := text + block;
    }
    assert cs[..|cs|] == cs;
  }

  method RenderRelations(rels: seq<Relation>) returns (text: string)
    ensures text == RelationLines(rels)
  {
    text := "";
    for i := 0 to |rels|
      invariant text == RelationLines(rels[..i])
    {
      assert rels[..i + 1][..i] == rels[..i];
      var r := rels[i];
      if r.from != "" && r.to != "" {
        if r.arrow == Inherits {
          text := text + ("\"" + r.from + "\" <|-- \"" + r.to + "\"\n");
        } else if r.name == EquivalentToLabel {
          text := text + ("\"" + r.from + "\" .. \"" + r.to + "\" : " + r.name + "\n");
        } else {
          text := text + ("\"" + r.from + "\" " + ArrowText(r.arrow) + " \"" + r.to + "\" : " + r.name + "\n");
        }
      }
    }
    assert rels[..|rels|] == rels;
  }

  method RenderEnumRefs(refs: seq<EnumRef>, es: seq<Enumeration>) returns (text: string)
    ensures text == RefLines(refs, es)
  {
    text := "";
    for i := 0 to |refs|
      invariant text == RefLines(refs[..i], es)
    {
      assert refs[..i + 1][..i] == refs[..i];
      if HasEnumeration(es, refs[i].to) {
        text := text + RefText(refs[i]);
      }
    }
    assert refs[..|refs|] == refs;
  }

  method GeneratePlantUml(cs: Table, ps: seq<Property>, rels: seq<Relation>, es: seq<Enumeration>, refs: seq<EnumRef>)
    returns (text: string)
    ensures text == Diagram(cs, ps, rels, es, refs)
  {
    text := Header;
    var enumText := "";
    for i := 0 to |es|
      invariant enumText == EnumBlocks(es[..i])
    {
      assert es[..i + 1][..i] == es[..i];
      var block := RenderEnumeration(es[i]);
      enumText := enumText + block;
    }
    assert es[..|es|] == es;
    var classText := RenderClasses(cs, ps);
    var relationText := RenderRelations(rels);
    var refText := RenderEnumRefs(refs, es);
    text := text + enumText + classText + relationText + refText + Footer;
  }

  // ---------------------------------------------------------------------------
  // Abridged text

  /** A text of at most 50 characters is shown as it is; a longer one as its first 47 and "...". */
  lemma TruncateFacts(s: string)
    ensures |Truncate(s)| <= MaxShown
    ensures Truncate(s) == s <==> |s| <= MaxShown
    ensures |s| > MaxShown ==> |Truncate(s)| == MaxShown && StartsWith(Truncate(s), s[..KeptPrefix]) && EndsWith(Truncate(s), "...")
    ensures Truncate(Truncate(s)) == Truncate(s)
  {
    if |s| > MaxShown {
      var r := s[..KeptPrefix] + "...";
      assert r[..KeptPrefix] == s[..KeptPrefix];
      assert r[|r| - 3..] == "...";
    }
  }

  // ---------------------------------------------------------------------------
  // Occurrence in the text

  /** `s` occurs in `t` at position `k`. */
  predicate OccursAt(t: string, s: string, k: int)
  {
    0 <= k <= |t| - |s| && t[k..k + |s|] == s
  }

  ghost predicate Contains(t: string, s: string)
  {
    exists k :: OccursAt(t, s, k)
  }

  lemma ContainsSelf(s: string)
    ensures Contains(s, s)
  {
    assert s[0..|s|] == s;
    assert OccursAt(s, s, 0);
  }

  lemma ContainsInLeft(a: string, b: string, s: string)
    requires Contains(a, s)
    ensures Contains(a + b, s)
  {
    var k :| OccursAt(a, s, k);
    assert (a + b)[k..k + |s|] == a[k..k + |s|];
    assert OccursAt(a + b, s, k);
  }

  lemma ContainsInRight(a: string, b: string, s: string)
    requires Contains(b, s)
    ensures Contains(a + b, s)
  {
    var k :| OccursAt(b, s, k);
    assert (a + b)[|a| + k..|a| + k + |s|] == b[k..k + |s|];
    assert OccursAt(a + b, s, |a| + k);
  }

  lemma StartsWithAppend(a: string, b: string, p: string)
    requires StartsWith(a, p)
    ensures StartsWith(a + b, p)
  {
    assert (a + b)[..|p|] == a[..|p|];
  }

  lemma EndsWithAppended(a: string, b: string)
    ensures EndsWith(a + b, b)
  {
    assert (a + b)[|a + b| - |b|..] == b;
  }

  /** A text that occurs in one section of the diagram occurs in the diagram. */
  lemma ContainsInDiagram(cs: Table, ps: seq<Property>, rels: seq<Relation>, es: seq<Enumeration>, refs: seq<EnumRef>, s: string)
    requires Contains(EnumBlocks(es), s) || Contains(ClassBlocks(cs, ps), s) || Contains(RelationLines(rels), s) || Contains(RefLines(refs, es), s)
    ensures Contains(Diagram(cs, ps, rels, es, refs), s)
  {
    var a := Header + EnumBlocks(es);
    var b := a + ClassBlocks(cs, ps);
    var c := b + RelationLines(rels);
    var d := c + RefLines(refs, es);
    if Contains(EnumBlocks(es), s) {
      ContainsInRight(Header, EnumBlocks(es), s);
      ContainsInLeft(a, ClassBlocks(cs, ps), s);
      ContainsInLeft(b, RelationLines(rels), s);
      ContainsInLeft(c, RefLines(refs, es), s);
    } else if Contains(ClassBlocks(cs, ps), s) {
      ContainsInRight(a, ClassBlocks(cs, ps), s);
      ContainsInLeft(b, RelationLines(rels), s);
      ContainsInLeft(c, RefLines(refs, es), s);
    } else if Contains(RelationLines(rels), s) {
      ContainsInRight(b, RelationLines(rels), s);
      ContainsInLeft(c, RefLines(refs, es), s);
    } else {
      ContainsInRight(c, RefLines(refs, es), s);
    }
    ContainsInLeft(d, Footer, s);
  }

  // ---------------------------------------------------------------------------
  // What the diagram shows

  /** The diagram opens with the header and legend and closes with "@enduml". */
  lemma DiagramFrame(cs: Table, ps: seq<Property>, rels: seq<Relation>, es: seq<Enumeration>, refs: seq<EnumRef>)
    ensures StartsWith(Diagram(cs, ps, rels, es, refs), Header)
    ensures EndsWith(Diagram(cs, ps, rels, es, refs), Footer)
  {
    var h := Header;
    var a := h + EnumBlocks(es);
    var b := a + ClassBlocks(cs, ps);
    var c := b + RelationLines(rels);
    var d := c + RefLines(refs, es);
    assert h[..|h|] == h;
    StartsWithAppend(h, EnumBlocks(es), h);
    StartsWithAppend(a, ClassBlocks(cs, ps), h);
    StartsWithAppend(b, RelationLines(rels), h);
    StartsWithAppend(c, RefLines(refs, es), h);
    StartsWithAppend(d, Footer, h);
    EndsWithAppended(d, Footer);
  }

  lemma {:induction false} EnumBlocksShow(es: seq<Enumeration>, i: nat)
    requires i < |es|
    ensures Contains(EnumBlocks(es), EnumBlock(es[i]))
  {
    var n := |es| - 1;
    if i < n {
      assert es[..n][i] == es[i];
      EnumBlocksShow(es[..n], i);
      ContainsInLeft(EnumBlocks(es[..n]), EnumBlock(es[n]), EnumBlock(es[i]));
    } else {
      ContainsSelf(EnumBlock(es[n]));
      ContainsInRight(EnumBlocks(es[..n]), EnumBlock(es[n]), EnumBlock(es[i]));
    }
  }

  lemma {:induction false} ClassBlocksShow(cs: Table, ps: seq<Property>, i: nat)
    requires i < |cs|
    ensures Contains(ClassBlocks(cs, ps), ClassBlockWith(cs[i], AttributesOf(ps, cs[i].name)))
  {
    var n := |cs| - 1;
    var block := ClassBlockWith(cs[i], AttributesOf(ps, cs[i].name));
    var last := ClassBlockWith(cs[n], AttributesOf(ps, cs[n].name));
    var before := ClassBlocks(cs[..n], ps);
    assert ClassBlocks(cs, ps) == before + last;
    if i < n {
      assert cs[..n][i] == cs[i];
      ClassBlocksShow(cs[..n], ps, i);
      ContainsInLeft(before, last, block);
    } else {
      ContainsSelf(block);
      ContainsInRight(before, last, block);
    }
  }

  lemma {:induction false} RelationLinesShow(rels: seq<Relation>, i: nat)
    requires i < |rels|
    ensures Contains(RelationLines(rels), RelationLine(rels[i]))
  {
    var n := |rels| - 1;
    if i < n {
      assert rels[..n][i] == rels[i];
      RelationLinesShow(rels[..n], i);
      ContainsInLeft(RelationLines(rels[..n]), RelationLine(rels[n]), RelationLine(rels[i]));
    } else {
      ContainsSelf(RelationLine(rels[n]));
      ContainsInRight(RelationLines(rels[..n]), RelationLine(rels[n]), RelationLine(rels[i]));
    }
  }

  lemma {:induction false} RefLinesShow(refs: seq<EnumRef>, es: seq<Enumeration>, i: nat)
    requires i < |refs|
    ensures Contains(RefLines(refs, es), RefLine(refs[i], es))
  {
    var n := |refs| - 1;
    if i < n {
      assert refs[..n][i] == refs[i];
      RefLinesShow(refs[..n], es, i);
      ContainsInLeft(RefLines(refs[..n], es), RefLine(refs[n], es), RefLine(refs[i], es));
    } else {
      ContainsSelf(RefLine(refs[n], es));
      ContainsInRight(RefLines(refs[..n], es), RefLine(refs[n], es), RefLine(refs[i], es));
    }
  }

  /** Every enumeration and every class has its block in the diagram. */
  lemma DiagramShowsBlocks(cs: Table, ps: seq<Property>, rels: seq<Relation>, es: seq<Enumeration>, refs: seq<EnumRef>)
    ensures forall i :: 0 <= i < |es| ==> Contains(Diagram(cs, ps, rels, es, refs), EnumBlock(es[i]))
    ensures forall i :: 0 <= i < |cs| ==> Contains(Diagram(cs, ps, rels, es, refs), ClassBlockWith(cs[i], AttributesOf(ps, cs[i].name)))
  {
    forall i | 0 <= i < |es|
      ensures Contains(Diagram(cs, ps, rels, es, refs), EnumBlock(es[i]))
    {
      EnumBlocksShow(es, i);
      ContainsInDiagram(cs, ps, rels, es, refs, EnumBlock(es[i]));
    }
    forall i | 0 <= i < |cs|
      ensures Contains(Diagram(cs, ps, rels, es, refs), ClassBlockWith(cs[i], AttributesOf(ps, cs[i].name)))
    {
      ClassBlocksShow(cs, ps, i);
      ContainsInDiagram(cs, ps, rels, es, refs, ClassBlockWith(cs[i], AttributesOf(ps, cs[i].name)));
    }
  }

  /** Every edge with two non-empty ends, and every reference to an existing enumeration, has its line. */
  lemma DiagramShowsLines(cs: Table, ps: seq<Property>, rels: seq<Relation>, es: seq<Enumeration>, refs: seq<EnumRef>)
    ensures forall i :: 0 <= i < |rels| && rels[i].from != "" && rels[i].to != "" ==>
      RelationLine(rels[i]) != "" && Contains(Diagram(cs, ps, rels, es, refs), RelationLine(rels[i]))
    ensures forall i :: 0 <= i < |refs| && HasEnumeration(es, refs[i].to) ==>
      Contains(Diagram(cs, ps, rels, es, refs), RefText(refs[i]))
  {
    forall i | 0 <= i < |rels| && rels[i].from != "" && rels[i].to != ""
      ensures RelationLine(rels[i]) != "" && Contains(Diagram(cs, ps, rels, es, refs), RelationLine(rels[i]))
    {
      RelationLinesShow(rels, i);
      ContainsInDiagram(cs, ps, rels, es, refs, RelationLine(rels[i]));
    }
    forall i | 0 <= i < |refs| && HasEnumeration(es, refs[i].to)
      ensures Contains(Diagram(cs, ps, rels, es, refs), RefText(refs[i]))
    {
      RefLinesShow(refs, es, i);
      ContainsInDiagram(cs, ps, rels, es, refs, RefText(refs[i]));
    }
  }

  // ---------------------------------------------------------------------------
  // Attribute grouping and the enumeration-reference filter

  /** Every attribute of a class comes from a data property whose domain it is. */
  lemma {:induction false} AttributesSound(ps: seq<Property>, cls: string, k: nat)
    requires k < |AttributesOf(ps, cls)|
    ensures exists i :: 0 <= i < |ps| && IsAttribute(ps[i]) && ps[i].domain.value == cls && AttributesOf(ps, cls)[k] == AttributeOf(ps[i])
  {
    var n := |ps| - 1;
    var p := ps[n];
    var before := AttributesOf(ps[..n], cls);
    var own := if IsAttribute(p) && p.domain.value == cls then [AttributeOf(p)] else [];
    assert AttributesOf(ps, cls) == before + own;
    if k < |before| {
      AttributesSound(ps[..n], cls, k);
      var i :| 0 <= i < n && IsAttribute(ps[..n][i]) && ps[..n][i].domain.value == cls && before[k] == AttributeOf(ps[..n][i]);
      assert ps[..n][i] == ps[i];
    } else {
      assert AttributesOf(ps, cls)[k] == AttributeOf(p);
    }
  }

  /** Every data property whose domain is a class gives that class its attribute. */
  lemma {:induction false} AttributesComplete(ps: seq<Property>, cls: string, i: nat)
    requires i < |ps| && IsAttribute(ps[i]) && ps[i].domain.value == cls
    ensures AttributeOf(ps[i]) in AttributesOf(ps, cls)
  {
    var n := |ps| - 1;
    var p := ps[n];
    var before := AttributesOf(ps[..n], cls);
    var own := if IsAttribute(p) && p.domain.value == cls then [AttributeOf(p)] else [];
    assert AttributesOf(ps, cls) == before + own;
    if i < n {
      assert ps[..n][i] == ps[i];
      AttributesComplete(ps[..n], cls, i);
    } else {
      assert own == [AttributeOf(ps[i])];
    }
  }

  /** Attributes follow the order of the properties. */
  lemma {:induction false} AttributesAppend(a: seq<Property>, b: seq<Property>, cls: string)
    ensures AttributesOf(a + b, cls) == AttributesOf(a, cls) + AttributesOf(b, cls)
  {
    if b == [] {
      assert a + b == a;
    } else {
      var n := |b| - 1;
      assert (a + b)[..|a + b| - 1] == a + b[..n];
      assert (a + b)[|a + b| - 1] == b[n];
      AttributesAppend(a, b[..n], cls);
    }
  }

  /** With no enumeration of a reference's target, the reference gives no text at all. */
  lemma {:induction false} RefLinesUnknownTargets(refs: seq<EnumRef>, es: seq<Enumeration>)
    requires forall i :: 0 <= i < |refs| ==> !HasEnumeration(es, refs[i].to)
    ensures RefLines(refs, es) == ""
  {
    if refs != [] {
      var n := |refs| - 1;
      assert forall i :: 0 <= i < n ==> refs[..n][i] == refs[i];
      RefLinesUnknownTargets(refs[..n], es);
    }
  }

  lemma RefLinesSingle(r: EnumRef, es: seq<Enumeration>)
    ensures RefLines([r], es) == RefLine(r, es)
  {
    assert [r][..0] == [];
  }

  /**
   * That property gives the line `"Patient" --> "GenderType" : gender` (the `RefText` of its
   * reference) when an enumeration `GenderType` exists, and no line when none does.
   */
  lemma EnumReferenceExample()
    ensures var p := Property("gender", DataProperty, Some("Patient"), Some("GenderType"), []);
      RefLines(EnumRefsOf([p]), [Enumeration("GenderType", ["Male", "Female"], None)]) ==
        RefText(EnumRef("Patient", "GenderType", "gender")) &&
      RefLines(EnumRefsOf([p]), [Enumeration("StageType", ["I"], None)]) == ""
  {
    GenderReference();
    var r := EnumRef("Patient", "GenderType", "gender");
    var known := [Enumeration("GenderType", ["Male", "Female"], None)];
    var other := [Enumeration("StageType", ["I"], None)];
    assert HasEnumeration(known, "GenderType") by {
      assert known[0].name == "GenderType";
    }
    assert !HasEnumeration(other, "GenderType") by {
      assert |other[0].name| != |"GenderType"|;
    }
    RefLinesSingle(r, known);
    RefLinesSingle(r, other);
  }
}
