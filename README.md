# OWL2PlantUML in Dafny

A model of the OWL-to-PlantUML converter `owl2plantuml_v17.py`. The converter reads an
OWL ontology (OWL/XML or RDF/XML) and builds a PlantUML class diagram from it:

- classes with their annotations, superclasses and equivalent classes;
- data properties, which become class attributes;
- object properties, which become associations;
- enumerations written as `owl:oneOf` lists, with the edges from the classes that use them.

The model goes from the parsed XML tree to the diagram text. The tree is represented by the
`Document` datatype (module `Document`). It holds, for each `findall` query the converter
makes, the elements that query returns, reduced to the attributes and children the converter
reads. Every stage then works on that value:

- `Names`: `get_local_name` and `normalize_value` over the value kinds the converter passes
  them: absent (None), a text, or a list.
- `Namespaces`: `parse_namespaces`, the declared prefixes completed with the four standard ones.
- `Annotations`: `extract_annotations`.
- `Enumerations`: `extract_enumerations`, including the walk along the `rdf:first`/`rdf:rest` list.
- `Classes` and `ClassInvariants`: `extract_classes`. It is a table of class entries that is
  extended step by step: declarations, `SubClassOf` axioms, reified `rdfs:subClassOf`
  statements, then `EquivalentClasses` groups. The lemmas state what the table promises.
- `Properties` and `PropertyFacts`: `extract_properties`. Its parts are the ObjectProperty
  fan-out, DatatypeProperty, reified DatatypeProperty, domain and range axioms, and `hasKey`
  attributes.
- `EnumRefs`: `extract_enum_references`.
- `Relations`: `extract_relations`. It collects the candidate edges, then deduplicates them
  with a set of unordered equivalence pairs.
- `Render`: `generate_plantuml`, the diagram text.
- `Pipeline`: `convert_owl2plantuml`, without the file I/O.

Each step of the source that loops becomes a `method` with a loop. The method's contract ties
its result to a specification function defined by recursion on the prefix of its input. The
lemmas state the converter's promises about those functions. The source's dictionaries are
datatypes. A list the source updates in place (the class list, the property list) is a `seq`
that each step returns in updated form.

## Behaviour worth knowing

The model keeps each of these behaviours of the code.

- **Enumeration references keep an "Unknown" domain.** `extract_relations` drops edges with
  an "Unknown" end (lines 528 and 574-576), but `extract_enum_references` (lines 505-515)
  filters nothing. A DatatypeProperty whose `rdfs:domain` lacks `rdf:resource` gets the domain
  "Unknown", and its enumeration edge keeps that end (`EnumRefs.UnknownDomainKept`).
- **Which edges count as equivalences.** Deduplication and rendering decide by the relation's
  name. An object property literally named `equivalentTo` is therefore deduplicated and drawn
  as an equivalence too (`Relations.IsEquivalence`, `Render.RelationLine`).
- **Empty endpoints.** A relation is drawn only when both of its ends are non-empty.
- **Enumeration comments.** The comment is "" when the description has no `rdfs:comment`
  child. It is None when the child has no text. Either way no comment section is printed.
- **Reified domain and range statements.** The predicate of a reified statement is compared
  with the text `{` + rdfs namespace + `}domain`, braces included (and likewise for `range`).
  An ordinary predicate URI never equals that text. So a reified DatatypeProperty whose
  statements use plain predicates keeps domain and range None
  (`PropertyFacts.ReifiedWithPlainPredicates`).

## Model

| member | source | states |
|---|---|---|
| Common.Or | OWL2PlantUML/owl2plantuml_v17.py:160 | Python's `a or b` on optional strings: the result is truthy iff either side is; it is `a` when `a` is truthy and `b` otherwise |
| Names.FirstTruthy | OWL2PlantUML/owl2plantuml_v17.py:36-40 | the index of the first truthy list element; every element before it is falsy, and the index is the length when there is none |
| Names.RemoveBraces | OWL2PlantUML/owl2plantuml_v17.py:46 | the result holds no brace and exactly the characters of the input other than braces |
| Names.RemoveBracesIdentity | OWL2PlantUML/owl2plantuml_v17.py:46 | removing braces leaves a brace-free text unchanged |
| Names.IndexOfAny | OWL2PlantUML/owl2plantuml_v17.py:49 | the first position holding one of the given characters, with none before it |
| Names.LastIndexOfAny | OWL2PlantUML/owl2plantuml_v17.py:59 | the last position holding one of the given characters, with none after it (-1 when there is none) |
| Names.SchemeLength | OWL2PlantUML/owl2plantuml_v17.py:49 | the scheme that urlparse splits off ends before any '/', '#' or '?' |
| Names.AuthorityEnd | OWL2PlantUML/owl2plantuml_v17.py:54 | the network location after "//" runs to the first '/', '?' or '#' |
| Names.PathStart | OWL2PlantUML/owl2plantuml_v17.py:54 | the path starts before any '#' or '?' |
| Names.LocalName | OWL2PlantUML/owl2plantuml_v17.py:30-63 | None gives "Unknown"; a text goes through brace removal, then fragment, basename of the path, and last segment in that order |
| Names.LocalNameOf | OWL2PlantUML/owl2plantuml_v17.py:32-33 | an absent attribute has the local name "Unknown" |
| Names.FragmentIndexInRest | OWL2PlantUML/owl2plantuml_v17.py:49 | the fragment's '#' lies at the same place whether searched in the whole URI or after the scheme and location |
| Names.LocalNameOfFragment | OWL2PlantUML/owl2plantuml_v17.py:49-51 | a URI `a#f` with a non-empty fragment `f` has the local name `f` |
| Names.SplitWithoutFragment | OWL2PlantUML/owl2plantuml_v17.py:49-54 | a URI without '#' and '?' has an empty fragment, and its path is everything after the scheme and location |
| Names.LastSeparator | OWL2PlantUML/owl2plantuml_v17.py:59 | the last separator of `p/seg` is the '/' before a separator-free `seg` |
| Names.BasenameOfSegment | OWL2PlantUML/owl2plantuml_v17.py:56 | `os.path.basename` of `q/seg` is `seg` |
| Names.AuthorityToEnd | OWL2PlantUML/owl2plantuml_v17.py:54 | a location that passes the last '/' takes the rest of the URI, which leaves the path empty |
| Names.LocalNameOfPlainText | OWL2PlantUML/owl2plantuml_v17.py:53-63 | without a fragment, the local name is the basename of a non-empty path, and the last segment otherwise |
| Names.BasenameOfSuffix | OWL2PlantUML/owl2plantuml_v17.py:56 | the basename of any suffix of `p/seg` that starts within `p` is `seg` |
| Names.LocalNameOfLastSegment | OWL2PlantUML/owl2plantuml_v17.py:53-61 | a URI ending in `/seg`, with no fragment, query or braces and no ';' in `seg`, has the local name `seg` |
| Names.LocalNameOfFirstTruthy | OWL2PlantUML/owl2plantuml_v17.py:36-43 | a list has the local name of its first truthy element |
| Names.NormalizeValue | OWL2PlantUML/owl2plantuml_v17.py:65-78 | None gives None; a text is returned as is; a list gives the normalisation of its first truthy element, or None when it has none |
| Names.NormalizeIdempotent | OWL2PlantUML/owl2plantuml_v17.py:65-78 | normalising a value a second time changes nothing |
| Names.NormalizeFindsText | OWL2PlantUML/owl2plantuml_v17.py:71-75 | a normalised value is a text that occurs in the input, and it is non-empty when the input is a list |
| Namespaces.AfterLastColon | OWL2PlantUML/owl2plantuml_v17.py:15 | the prefix taken from `key.split(':')[-1]` holds no ':' |
| Namespaces.AfterLastColonIsTail | OWL2PlantUML/owl2plantuml_v17.py:15 | that prefix is a tail of the key, preceded by ':' whenever it is shorter than the key |
| Namespaces.WithDefaults | OWL2PlantUML/owl2plantuml_v17.py:19-26 | the declared prefixes plus rdf, rdfs, owl and xsd; declared values are never overwritten, and each missing standard prefix gets its W3C URI |
| Namespaces.ParseNamespaces | OWL2PlantUML/owl2plantuml_v17.py:10-28 | the loop over the root attributes builds `WithDefaults(Declared(attrs))` |
| Namespaces.DeclaredKeys | OWL2PlantUML/owl2plantuml_v17.py:13-16 | a prefix is declared iff some root attribute starting with the xml namespace or with `xmlns:` ends in it |
| Namespaces.DeclaredValue | OWL2PlantUML/owl2plantuml_v17.py:13-16 | the value kept for a prefix is the one from its last declaring attribute |
| Namespaces.RdfsResolved | OWL2PlantUML/owl2plantuml_v17.py:21-22 | the rdfs namespace the extractors use is the declared one, or the W3C rdfs URI when none is declared |
| Annotations.ExplicitAnnotations | OWL2PlantUML/owl2plantuml_v17.py:302-313 | at most one annotation per owl:Annotation child, each with a non-empty property and a truthy value |
| Annotations.ExplicitAnnotationsAppend | OWL2PlantUML/owl2plantuml_v17.py:302-313 | explicit annotations distribute over concatenation, so they keep the order of the owl:Annotation children |
| Annotations.ExplicitAnnotationsSound | OWL2PlantUML/owl2plantuml_v17.py:302-313 | every explicit annotation is `{local name of the property IRI, literal text}` of some child whose name and text are both truthy |
| Annotations.ExplicitAnnotationsComplete | OWL2PlantUML/owl2plantuml_v17.py:302-313 | every child whose property name and literal text are both truthy yields its annotation |
| Annotations.CommentAnnotations | OWL2PlantUML/owl2plantuml_v17.py:323-327 | exactly one "comment" annotation per rdfs:comment child, each carrying that child's text |
| Annotations.ExtractAnnotations | OWL2PlantUML/owl2plantuml_v17.py:297-329 | the two loops build the explicit annotations followed by the comment annotations |
| Annotations.AnnotationsBounds | OWL2PlantUML/owl2plantuml_v17.py:297-329 | the count lies between the number of comments and the number of children; every annotation whose property is not "comment" has a truthy value |
| Enumerations.NodeValue | OWL2PlantUML/owl2plantuml_v17.py:108-110 | a list node contributes a value iff its `rdf:first` exists and has text |
| Enumerations.CollectValues | OWL2PlantUML/owl2plantuml_v17.py:106-121 | every collected enumeration value is non-empty |
| Enumerations.WalkList | OWL2PlantUML/owl2plantuml_v17.py:106-121 | the while loop over the RDF list yields `CollectValues` of its head |
| Enumerations.EnumerationsOf | OWL2PlantUML/owl2plantuml_v17.py:92-134 | at most one enumeration per description, and none with an empty value list |
| Enumerations.ExtractEnumerations | OWL2PlantUML/owl2plantuml_v17.py:80-134 | the loop over rdf:Description elements yields `EnumerationsOf` |
| Enumerations.CollectListOf | OWL2PlantUML/owl2plantuml_v17.py:106-121 | walking a well-formed RDF list built from non-empty values gives those values back, in order |
| Enumerations.ListOf | OWL2PlantUML/owl2plantuml_v17.py:106 | the RDF list of a value sequence is absent iff the sequence is empty |
| Enumerations.NilStopsWalk | OWL2PlantUML/owl2plantuml_v17.py:117-119 | a `rdf:rest` pointing at rdf:nil ends the walk, whatever follows it |
| Enumerations.EnumerationOfIff | OWL2PlantUML/owl2plantuml_v17.py:93-132 | a description yields an enumeration iff it has a truthy rdf:about, a oneOf list and at least one value; the name is the local name of rdf:about and the values are the list's |
| Enumerations.EnumerationsFromDescriptions | OWL2PlantUML/owl2plantuml_v17.py:92-132 | every enumeration comes from some description |
| Enumerations.EnumerationsAppend | OWL2PlantUML/owl2plantuml_v17.py:92-132 | extraction distributes over concatenation, so the order of descriptions is kept |
| Classes.IndexOfName | OWL2PlantUML/owl2plantuml_v17.py:232 | `next(c for c in classes if c['name'] == x)`: the first entry with the name, with none before it |
| Classes.FindClass | OWL2PlantUML/owl2plantuml_v17.py:232 | the linear search returns `IndexOfName` |
| Classes.AppendNew | OWL2PlantUML/owl2plantuml_v17.py:234-235 | append-if-absent: the list is unchanged when the name is already there, else grows by that one name at the end; its members are exactly the old ones plus the name; no duplicate and no "" is introduced |
| Classes.AddName | OWL2PlantUML/owl2plantuml_v17.py:182-183 | an empty or already listed name leaves the list unchanged; otherwise the list grows by that one name at the end; its members are exactly the old ones plus the name when it is non-empty; no duplicate and no "" is introduced |
| Classes.NestedNamesClean | OWL2PlantUML/owl2plantuml_v17.py:188-193 | nested owl:Class names only extend the list and keep it clean (no duplicates, no "") |
| Classes.RefNamesClean | OWL2PlantUML/owl2plantuml_v17.py:178-193 | one subClassOf or equivalentClass child only extends the list and keeps it clean |
| Classes.InlineNamesClean | OWL2PlantUML/owl2plantuml_v17.py:178-211 | the inline superclass and equivalence lists of a declaration are clean |
| Classes.NestedNamesIff | OWL2PlantUML/owl2plantuml_v17.py:188-193 | gathering nested owl:Class children adds exactly their non-empty names (rdf:about before IRI) to what was there |
| Classes.RefNamesIff | OWL2PlantUML/owl2plantuml_v17.py:178-193 | one rdfs:subClassOf or owl:equivalentClass child adds exactly the non-empty names it offers: its rdf:resource's local name if that is truthy, else its nested classes' names |
| Classes.InlineNamesIff | OWL2PlantUML/owl2plantuml_v17.py:178-211 | a name is in a declaration's inline list iff it is non-empty and some child offers it |
| Classes.CollectNestedNames | OWL2PlantUML/owl2plantuml_v17.py:188-193 | the loop builds `NestedNames` |
| Classes.CollectRefNames | OWL2PlantUML/owl2plantuml_v17.py:179-193 | the loop body builds `RefNames` |
| Classes.CollectInlineNames | OWL2PlantUML/owl2plantuml_v17.py:178-211 | the loop builds `InlineNames` |
| Classes.IndexOfAppend | OWL2PlantUML/owl2plantuml_v17.py:232 | how the first match moves when an entry is appended |
| Classes.DeclareClasses | OWL2PlantUML/owl2plantuml_v17.py:149-213 | the declaration loop builds `DeclaredClasses`, skipping empty ids and names already added; what that table holds is stated by ClassInvariants.DeclaredNamedIff, DeclaredEntry and DeclaredEntrySource |
| Classes.AddSuperclass | OWL2PlantUML/owl2plantuml_v17.py:230-242 | the merge step builds `WithSuperclass` |
| Classes.AddEquivalent | OWL2PlantUML/owl2plantuml_v17.py:282-293 | the merge step builds `WithEquivalent` |
| Classes.AxiomPairs | OWL2PlantUML/owl2plantuml_v17.py:216-230 | at most one (sub, super) pair per SubClassOf axiom, both names non-empty |
| Classes.StatementPairs | OWL2PlantUML/owl2plantuml_v17.py:245-249 | at most one pair per element, both names non-empty |
| Classes.MergeSubClassAxioms | OWL2PlantUML/owl2plantuml_v17.py:216-242 | the loop applies the merge to every axiom pair, in order |
| Classes.MergeSubClassStatements | OWL2PlantUML/owl2plantuml_v17.py:245-260 | the loop applies the merge to every statement pair, in order |
| Classes.GroupNames | OWL2PlantUML/owl2plantuml_v17.py:267-270 | the names of an EquivalentClasses group are all non-empty |
| Classes.EquivalenceGroups | OWL2PlantUML/owl2plantuml_v17.py:263-274 | every group kept has at least two members, none empty |
| Classes.PartnerLinks | OWL2PlantUML/owl2plantuml_v17.py:279-280 | member i is linked to at most the first m positions |
| Classes.CollectGroupNames | OWL2PlantUML/owl2plantuml_v17.py:267-270 | the loop builds `GroupNames` |
| Classes.CollectEquivalenceGroups | OWL2PlantUML/owl2plantuml_v17.py:263-274 | the loop builds `EquivalenceGroups` |
| Classes.LinkMember | OWL2PlantUML/owl2plantuml_v17.py:279-293 | the inner loop adds the links from one member to all the others |
| Classes.LinkGroup | OWL2PlantUML/owl2plantuml_v17.py:278-293 | the middle loop adds the links of every member of a group |
| Classes.MergeEquivalenceGroups | OWL2PlantUML/owl2plantuml_v17.py:277-293 | the outer loop adds the links of every group, in order |
| Classes.ExtractClasses | OWL2PlantUML/owl2plantuml_v17.py:136-295 | the four phases build `ClassTable(doc)` |
| ClassInvariants.AppendDistinct | OWL2PlantUML/owl2plantuml_v17.py:236-242 | appending an absent name keeps the names distinct |
| ClassInvariants.AppendNewClean | OWL2PlantUML/owl2plantuml_v17.py:234-235 | append-if-absent of a non-empty name keeps a list clean |
| ClassInvariants.WithSuperclassValid | OWL2PlantUML/owl2plantuml_v17.py:230-242 | a subclass merge keeps the table valid: distinct names, clean lists |
| ClassInvariants.WithEquivalentValid | OWL2PlantUML/owl2plantuml_v17.py:282-293 | an equivalence merge keeps the table valid |
| ClassInvariants.DeclaredValid | OWL2PlantUML/owl2plantuml_v17.py:155-213 | declarations give a valid table, with no duplicate class name |
| ClassInvariants.UpdateValid | OWL2PlantUML/owl2plantuml_v17.py:234-235 | replacing an entry in place by one with the same name and clean lists keeps the table valid |
| ClassInvariants.AppendValid | OWL2PlantUML/owl2plantuml_v17.py:213 | appending an entry with a new name and clean lists keeps the table valid |
| ClassInvariants.DeclareStepValid | OWL2PlantUML/owl2plantuml_v17.py:159-213 | one declaration keeps a valid table valid |
| ClassInvariants.DeclareStepNamed | OWL2PlantUML/owl2plantuml_v17.py:159-168 | one declaration adds exactly the name it declares, if any |
| ClassInvariants.DeclaredNamedIff | OWL2PlantUML/owl2plantuml_v17.py:149-213 | the declared table has an entry for a name iff some owl:Class or rdfs:Class element declares it (truthy rdf:about, else rdf:ID) |
| ClassInvariants.DeclaresSnoc | OWL2PlantUML/owl2plantuml_v17.py:159-160 | an element more declares a name iff the earlier ones or the new one do |
| ClassInvariants.FirstDeclarationOfPrefix | OWL2PlantUML/owl2plantuml_v17.py:164-168 | the first declaration of a name in a prefix is its first declaration in the whole list |
| ClassInvariants.FirstDeclarationOfInit | OWL2PlantUML/owl2plantuml_v17.py:164-168 | the first declaration of a name before the last element stays first without it |
| ClassInvariants.FirstDeclarationFresh | OWL2PlantUML/owl2plantuml_v17.py:164-168 | no element before the first declaration of a name declares it |
| ClassInvariants.DeclareStepKeeps | OWL2PlantUML/owl2plantuml_v17.py:164-166 | a declaration leaves the entry of a name already added where and as it was |
| ClassInvariants.DeclareStepAdds | OWL2PlantUML/owl2plantuml_v17.py:168-213 | a declaration of a new name appends `{name, annotations, inline subClassOf, inline equivalentTo}`, found under that name |
| ClassInvariants.DeclaredEntryLast | OWL2PlantUML/owl2plantuml_v17.py:159-213 | the last element, when it is the first to declare its name, gives that name's entry |
| ClassInvariants.DeclaredEntryKept | OWL2PlantUML/owl2plantuml_v17.py:164-166 | an entry already in the table survives one more declaration |
| ClassInvariants.DeclaredEntry | OWL2PlantUML/owl2plantuml_v17.py:159-213 | the first element to declare a name gives that name's entry: its annotations and its inline superclass and equivalent-class names; later elements with the same name are skipped |
| ClassInvariants.DeclaredEntrySource | OWL2PlantUML/owl2plantuml_v17.py:159-213 | every declared entry is the entity of the first element declaring its name; nothing else is declared |
| ClassInvariants.WithSuperclassesValid | OWL2PlantUML/owl2plantuml_v17.py:216-260 | any sequence of subclass merges keeps the table valid |
| ClassInvariants.WithEquivalentsValid | OWL2PlantUML/owl2plantuml_v17.py:277-293 | any sequence of equivalence merges keeps the table valid |
| ClassInvariants.ClassTableValid | OWL2PlantUML/owl2plantuml_v17.py:136-295 | the extracted class list has distinct names and clean superclass and equivalence lists |
| ClassInvariants.ExtendsTrans | OWL2PlantUML/owl2plantuml_v17.py:230-293 | "only extends existing entries or appends new ones" is transitive |
| ClassInvariants.IndexStable | OWL2PlantUML/owl2plantuml_v17.py:232 | a name's entry stays at its position when the table is extended |
| ClassInvariants.RecordsStable | OWL2PlantUML/owl2plantuml_v17.py:230-293 | recorded superclass and equivalence links survive extension |
| ClassInvariants.WithSuperclassExtends | OWL2PlantUML/owl2plantuml_v17.py:230-242 | a subclass merge only extends the table |
| ClassInvariants.WithSuperclassRecords | OWL2PlantUML/owl2plantuml_v17.py:230-242 | after a subclass merge the pair is recorded |
| ClassInvariants.WithEquivalentExtends | OWL2PlantUML/owl2plantuml_v17.py:282-293 | an equivalence merge only extends the table |
| ClassInvariants.WithEquivalentRecords | OWL2PlantUML/owl2plantuml_v17.py:282-293 | after an equivalence merge the link is recorded |
| ClassInvariants.WithSuperclassShape | OWL2PlantUML/owl2plantuml_v17.py:230-242 | the first entry named `sub` becomes itself with `super` appended to its subClassOf if absent, and is the only one changed; a missing name is appended as `{name, [], [super], []}` |
| ClassInvariants.WithEquivalentShape | OWL2PlantUML/owl2plantuml_v17.py:282-293 | the first entry with the name becomes itself with `other` appended to its equivalentTo if absent, and is the only one changed; a missing member is synthesised as `{name, [], [], [other]}` |
| ClassInvariants.WithSuperclassesExtend | OWL2PlantUML/owl2plantuml_v17.py:216-260 | a sequence of subclass merges only extends the table |
| ClassInvariants.WithSuperclassesRecorded | OWL2PlantUML/owl2plantuml_v17.py:216-260 | every merged pair ends up recorded |
| ClassInvariants.PartnerLinksWellFormed | OWL2PlantUML/owl2plantuml_v17.py:279-280 | a member's links name no empty class, and link no class to itself when the group is duplicate-free |
| ClassInvariants.MemberLinksWellFormed | OWL2PlantUML/owl2plantuml_v17.py:278-280 | the same for all the members of a group |
| ClassInvariants.GroupLinksNamed | OWL2PlantUML/owl2plantuml_v17.py:277-280 | the links of all groups name no empty class |
| ClassInvariants.PartnerLinksLength | OWL2PlantUML/owl2plantuml_v17.py:279-280 | a member gets one link per other position (m-1 links when it lies in range) |
| ClassInvariants.PartnerLinksAt | OWL2PlantUML/owl2plantuml_v17.py:279-285 | the link from member i to member j, for j != i, is present |
| ClassInvariants.MemberLinksAt | OWL2PlantUML/owl2plantuml_v17.py:278-285 | every ordered pair of distinct positions of a group is linked |
| ClassInvariants.GroupLinksAt | OWL2PlantUML/owl2plantuml_v17.py:277-285 | every ordered pair of distinct positions of every group is linked |
| ClassInvariants.WithEquivalentsExtend | OWL2PlantUML/owl2plantuml_v17.py:277-293 | equivalence merges only extend the table |
| ClassInvariants.WithEquivalentsRecorded | OWL2PlantUML/owl2plantuml_v17.py:277-293 | every merged link ends up recorded |
| ClassInvariants.EquivalenceGroupLinked | OWL2PlantUML/owl2plantuml_v17.py:277-293 | each member of a group lists every other member as equivalent |
| ClassInvariants.WithEquivalentSelfFree | OWL2PlantUML/owl2plantuml_v17.py:280-285 | linking two different names never makes a class equivalent to itself |
| ClassInvariants.WithEquivalentsSelfFree | OWL2PlantUML/owl2plantuml_v17.py:280-285 | the same for any sequence of self-free links |
| ClassInvariants.WithEquivalentsOnly | OWL2PlantUML/owl2plantuml_v17.py:277-293 | equivalence merges change only equivalence lists (and append entries) |
| ClassInvariants.EquivalenceGroupMembers | OWL2PlantUML/owl2plantuml_v17.py:277-293 | after a duplicate-free group is merged, every member exists, is no more self-equivalent than before, and a synthesised member has no annotations and no superclasses |
| ClassInvariants.ClassTableShape | OWL2PlantUML/owl2plantuml_v17.py:136-295 | the final list extends the declared one, links every pair of members of each equivalence group, and records every subclass pair from axioms and statements (the soundness half is ClassTableSuperclassesSound and ClassTableEquivalentsSound) |
| ClassInvariants.SuperclassOnlyTrans | OWL2PlantUML/owl2plantuml_v17.py:216-260 | "only superclasses change" is transitive |
| ClassInvariants.WithSuperclassOnly | OWL2PlantUML/owl2plantuml_v17.py:230-242 | a subclass merge changes no annotations and no equivalent classes, and appends only an entry without them |
| ClassInvariants.WithSuperclassesOnly | OWL2PlantUML/owl2plantuml_v17.py:216-260 | the same for any sequence of subclass merges |
| ClassInvariants.ListedFromTrans | OWL2PlantUML/owl2plantuml_v17.py:216-293 | the origin of listed names composes over successive stages |
| ClassInvariants.OnlyListsNothingNew | OWL2PlantUML/owl2plantuml_v17.py:216-293 | the subclass stages list no new equivalent class, and the equivalence stage no new superclass |
| ClassInvariants.WithSuperclassFrom | OWL2PlantUML/owl2plantuml_v17.py:230-242 | after a subclass merge, every superclass an entry lists was there before or is the merged one for that entry's name |
| ClassInvariants.WithEquivalentFrom | OWL2PlantUML/owl2plantuml_v17.py:282-293 | after an equivalence merge, every equivalent an entry lists was there before or is the merged one for that entry's name |
| ClassInvariants.WithSuperclassesFrom | OWL2PlantUML/owl2plantuml_v17.py:216-260 | the same for a sequence of subclass pairs: every new superclass comes from a pair of that class |
| ClassInvariants.WithEquivalentsFrom | OWL2PlantUML/owl2plantuml_v17.py:277-293 | the same for a sequence of equivalence links |
| ClassInvariants.PartnerLinksSound | OWL2PlantUML/owl2plantuml_v17.py:279-280 | every link of member i joins it to another position of the group |
| ClassInvariants.MemberLinksSound | OWL2PlantUML/owl2plantuml_v17.py:278-280 | every link of a group joins two different positions of it |
| ClassInvariants.GroupLinksSound | OWL2PlantUML/owl2plantuml_v17.py:277-280 | every link of all groups joins two different positions of one group |
| ClassInvariants.ClassTableSuperclassesSound | OWL2PlantUML/owl2plantuml_v17.py:136-260 | every superclass a final entry lists was written inside its declaration, or is the superclass of an owl:SubClassOf axiom or reified rdfs:subClassOf statement about that class; nothing else |
| ClassInvariants.ClassTableEquivalentsSound | OWL2PlantUML/owl2plantuml_v17.py:136-293 | every equivalent class a final entry lists was written inside its declaration, or is a partner of that class in an owl:EquivalentClasses group; nothing else |
| ClassInvariants.DeclaredClassKept | OWL2PlantUML/owl2plantuml_v17.py:159-293 | the first element to declare a name keeps, in the final list, its annotations exactly and its inline superclass and equivalent-class names as the start of its lists |
| Properties.FirstOf | OWL2PlantUML/owl2plantuml_v17.py:384 | `ranges[0] if ranges else None`: defined iff the list is non-empty |
| Properties.CollectTruthyNames | OWL2PlantUML/owl2plantuml_v17.py:364-367 | the loop over union members builds `TruthyNames` |
| Properties.CollectDomains | OWL2PlantUML/owl2plantuml_v17.py:353-367 | the loop over rdfs:domain children builds `DomainsOf` |
| Properties.FanOut | OWL2PlantUML/owl2plantuml_v17.py:377-386 | appends one copy of the property per domain |
| Properties.ExtractObjectProperties | OWL2PlantUML/owl2plantuml_v17.py:343-390 | the ObjectProperty loop builds `ObjectPropertiesOf` |
| Properties.LastLocalName | OWL2PlantUML/owl2plantuml_v17.py:403-408 | the last child wins; the result is defined iff there is a child |
| Properties.DatatypePropertiesOf | OWL2PlantUML/owl2plantuml_v17.py:393-410 | exactly one entry per owl:DatatypeProperty |
| Properties.LastResourceName | OWL2PlantUML/owl2plantuml_v17.py:403-408 | the loop computes `LastLocalName` |
| Properties.ExtractDatatypeProperties | OWL2PlantUML/owl2plantuml_v17.py:393-410 | the loop builds `DatatypePropertiesOf` |
| Properties.ReifiedPropertiesOf | OWL2PlantUML/owl2plantuml_v17.py:413-434 | at most one entry per typed element |
| Properties.ApplyStatements | OWL2PlantUML/owl2plantuml_v17.py:425-432 | the statement loop computes `Statements` |
| Properties.ExtractReifiedProperties | OWL2PlantUML/owl2plantuml_v17.py:413-434 | the loop builds `ReifiedPropertiesOf` |
| Properties.AxiomBindings | OWL2PlantUML/owl2plantuml_v17.py:437-443 | at most one (property, class) binding per axiom |
| Properties.IndexOfProperty | OWL2PlantUML/owl2plantuml_v17.py:446 | the first property with the name, with none before it |
| Properties.FindProperty | OWL2PlantUML/owl2plantuml_v17.py:446 | the search returns `IndexOfProperty` |
| Properties.AxiomStep | OWL2PlantUML/owl2plantuml_v17.py:437-456 | one more axiom applies its binding, or nothing when it has none |
| Properties.ApplyAxioms | OWL2PlantUML/owl2plantuml_v17.py:437-477 | the axiom loop builds `WithBindings` |
| Properties.KeyEntriesStep | OWL2PlantUML/owl2plantuml_v17.py:488-497 | one more hasKey IRI appends `{name, DataProperty, class, "String"}` when its name is truthy |
| Properties.CollectKeyEntries | OWL2PlantUML/owl2plantuml_v17.py:488-497 | the loop appends `KeyEntries` |
| Properties.KeyPropertiesStep | OWL2PlantUML/owl2plantuml_v17.py:480-497 | one more class contributes its key entries |
| Properties.AddClassKeys | OWL2PlantUML/owl2plantuml_v17.py:481-497 | one class's key entries are appended |
| Properties.ExtractKeyProperties | OWL2PlantUML/owl2plantuml_v17.py:480-497 | the loop builds `KeyPropertiesOf` |
| Properties.ExtractProperties | OWL2PlantUML/owl2plantuml_v17.py:331-499 | the whole extraction builds `PropertyList` with the resolved rdfs namespace |
| PropertyFacts.FannedShape | OWL2PlantUML/owl2plantuml_v17.py:377-386 | the k-th copy is the base with domain k |
| PropertyFacts.ObjectFanOut | OWL2PlantUML/owl2plantuml_v17.py:376-390 | k domains give k entries, the i-th with domain i; no domain gives one entry with domain None; every entry has range `ranges[0]` (None when no range) |
| PropertyFacts.LastLocalNameWins | OWL2PlantUML/owl2plantuml_v17.py:403-408 | a later non-empty run of children overrides everything before it |
| PropertyFacts.DatatypeDomain | OWL2PlantUML/owl2plantuml_v17.py:393-410 | domain and range are defined iff there is such a child, and then are the local name of the last one; the kind is DataProperty |
| PropertyFacts.StatementsIgnoreOthers | OWL2PlantUML/owl2plantuml_v17.py:425-432 | statements about other subjects, or with other predicates, change nothing |
| PropertyFacts.PlainPredicateDiffers | OWL2PlantUML/owl2plantuml_v17.py:429-432 | a plain `rdfs...domain`/`range` URI never equals the braced text the code compares with |
| PropertyFacts.ReifiedWithPlainPredicates | OWL2PlantUML/owl2plantuml_v17.py:413-434 | with only plain predicates, a reified property keeps domain and range None |
| PropertyFacts.StatementsAppend | OWL2PlantUML/owl2plantuml_v17.py:425-432 | statements apply one after the other, in document order |
| PropertyFacts.StatementsKeepDomain | OWL2PlantUML/owl2plantuml_v17.py:429-430 | statements that set no domain keep the domain |
| PropertyFacts.StatementsLastDomain | OWL2PlantUML/owl2plantuml_v17.py:425-430 | the last domain statement about the subject decides the domain |
| PropertyFacts.StatementsKeepRange | OWL2PlantUML/owl2plantuml_v17.py:431-432 | statements that set no range keep the range |
| PropertyFacts.StatementsLastRange | OWL2PlantUML/owl2plantuml_v17.py:425-432 | the last range statement about the subject decides the range |
| PropertyFacts.ReifiedEntryIff | OWL2PlantUML/owl2plantuml_v17.py:413-422 | an element gives an entry iff it is typed owl:DatatypeProperty and its name is truthy; the entry is a DataProperty with that name and no annotations |
| PropertyFacts.StatementsKeepName | OWL2PlantUML/owl2plantuml_v17.py:425-432 | statements change only domain and range |
| PropertyFacts.KeepsTrans | OWL2PlantUML/owl2plantuml_v17.py:437-477 | "keeps names, kinds, annotations and the other facet" is transitive |
| PropertyFacts.IndexStable | OWL2PlantUML/owl2plantuml_v17.py:446 | a property's first match keeps its position when the list grows with names preserved |
| PropertyFacts.IndexOfAppended | OWL2PlantUML/owl2plantuml_v17.py:450-456 | an appended new property is found at its position |
| PropertyFacts.BindingKeeps | OWL2PlantUML/owl2plantuml_v17.py:446-456 | one axiom touches only the facet it sets |
| PropertyFacts.BindingRecorded | OWL2PlantUML/owl2plantuml_v17.py:446-456 | after an axiom, the first property with that name has the class as its domain or range |
| PropertyFacts.OtherBindingKeeps | OWL2PlantUML/owl2plantuml_v17.py:446-456 | an axiom about one name leaves the first record of any other name where and as it was |
| PropertyFacts.BindingShape | OWL2PlantUML/owl2plantuml_v17.py:445-476 | one axiom changes only the first record with its name (setting that field) or appends exactly one object property with the name and only that field; every other record is unchanged |
| PropertyFacts.UntouchedStep | OWL2PlantUML/owl2plantuml_v17.py:445-476 | an axiom that does not find a record first leaves that record as it was |
| PropertyFacts.BindingsUntouched | OWL2PlantUML/owl2plantuml_v17.py:437-477 | a record that is not the first of its name, or whose name no axiom carries, comes through all axioms unchanged |
| PropertyFacts.ShadowedRecordKept | OWL2PlantUML/owl2plantuml_v17.py:437-477 | a declared record with the name of an earlier declared record (a later fanned-out copy) keeps its domain and range in the final property list |
| PropertyFacts.FirstCopyOnly | OWL2PlantUML/owl2plantuml_v17.py:445-455 | a domain axiom for C on two copies with domains A and B gives C and B |
| PropertyFacts.BindingsKeep | OWL2PlantUML/owl2plantuml_v17.py:437-477 | a sequence of axioms touches only its facet |
| PropertyFacts.BindingsRecorded | OWL2PlantUML/owl2plantuml_v17.py:437-477 | the last axiom for a name decides that name's facet |
| PropertyFacts.IndexUnderAppend | OWL2PlantUML/owl2plantuml_v17.py:446 | appending keeps an existing match |
| PropertyFacts.DomainAxiomTakesEffect | OWL2PlantUML/owl2plantuml_v17.py:437-456 | in the final property list, the property named by the last domain axiom for it has that domain |
| PropertyFacts.RangeAxiomTakesEffect | OWL2PlantUML/owl2plantuml_v17.py:458-477 | the same for range axioms |
| PropertyFacts.AxiomsKeepDeclared | OWL2PlantUML/owl2plantuml_v17.py:437-477 | the axioms never remove, reorder, rename or re-kind the declared properties |
| PropertyFacts.KeyEntriesShape | OWL2PlantUML/owl2plantuml_v17.py:488-497 | key entries are DataProperties of the class with range "String" and no annotations, at most one per IRI |
| PropertyFacts.KeyPropertiesShape | OWL2PlantUML/owl2plantuml_v17.py:480-497 | every key entry has that shape |
| EnumRefs.RefOf | OWL2PlantUML/owl2plantuml_v17.py:511-515 | a reference goes from the domain to a range ending in "Type", under the property's name |
| EnumRefs.EnumRefsOf | OWL2PlantUML/owl2plantuml_v17.py:505-515 | at most one reference per property |
| EnumRefs.ExtractEnumReferences | OWL2PlantUML/owl2plantuml_v17.py:501-517 | the loop builds `EnumRefsOf` |
| EnumRefs.EnumRefsAppend | OWL2PlantUML/owl2plantuml_v17.py:505-515 | references keep the property order |
| EnumRefs.EnumRefsSingle | OWL2PlantUML/owl2plantuml_v17.py:506-515 | one property gives its reference iff it is a DataProperty with truthy domain and a truthy range ending in "Type" |
| EnumRefs.EnumRefsIff | OWL2PlantUML/owl2plantuml_v17.py:505-515 | a reference is produced iff some qualifying property yields it |
| EnumRefs.EnumRefsShape | OWL2PlantUML/owl2plantuml_v17.py:510-515 | every target ends in "Type" and every source is non-empty |
| EnumRefs.UnknownDomainKept | OWL2PlantUML/owl2plantuml_v17.py:506-515 | a reference whose domain is "Unknown" is not filtered |
| EnumRefs.GenderReference | OWL2PlantUML/owl2plantuml_v17.py:506-515 | `gender: Patient -> GenderType` gives the reference Patient to GenderType |
| Relations.ObjectRelation | OWL2PlantUML/owl2plantuml_v17.py:525-534 | an association iff the property is an ObjectProperty with truthy domain and range and a domain other than "Unknown" |
| Relations.LexTotal | OWL2PlantUML/owl2plantuml_v17.py:569 | the code-point order `sorted` uses is total |
| Relations.LexAntisymmetric | OWL2PlantUML/owl2plantuml_v17.py:569 | that order is antisymmetric |
| Relations.PairKeySymmetric | OWL2PlantUML/owl2plantuml_v17.py:569 | the sorted pair of (a, b) equals that of (b, a) |
| Relations.PairKeyIff | OWL2PlantUML/owl2plantuml_v17.py:569 | two sorted pairs are equal iff the name pairs are equal up to order |
| Relations.KeyResolved | OWL2PlantUML/owl2plantuml_v17.py:570 | edges with the same pair are equally free of "Unknown" |
| Relations.SeenPairsIff | OWL2PlantUML/owl2plantuml_v17.py:564-571 | a pair is in the seen set iff an earlier resolved equivalence has that pair |
| Relations.DedupStep | OWL2PlantUML/owl2plantuml_v17.py:566-576 | an equivalence is kept iff its pair is unseen and free of "Unknown"; any other edge iff neither end is "Unknown" |
| Relations.DedupRelations | OWL2PlantUML/owl2plantuml_v17.py:563-578 | the loop with the seen set builds `UniqueRelations` |
| Relations.CollectObjectRelations | OWL2PlantUML/owl2plantuml_v17.py:524-534 | the loop builds `ObjectRelationsOf` |
| Relations.CollectSuperEdges | OWL2PlantUML/owl2plantuml_v17.py:538-548 | the loop builds `SuperEdges` |
| Relations.CollectEquivalenceEdges | OWL2PlantUML/owl2plantuml_v17.py:551-559 | the loop builds `EquivalenceEdges` |
| Relations.CollectClassRelations | OWL2PlantUML/owl2plantuml_v17.py:537-559 | the loop builds `ClassRelationsOf` |
| Relations.ExtractRelations | OWL2PlantUML/owl2plantuml_v17.py:519-578 | builds `RelationList`: the deduplicated candidate edges |
| Relations.UniqueIndexed | OWL2PlantUML/owl2plantuml_v17.py:566-576 | the output is the kept input edges at increasing positions, in order, and every kept edge appears |
| Relations.NoUnknownEndpoints | OWL2PlantUML/owl2plantuml_v17.py:570-576 | no output edge has an "Unknown" end |
| Relations.UniqueFromInput | OWL2PlantUML/owl2plantuml_v17.py:566-576 | every output edge is an input edge |
| Relations.EquivalenceAtMostOnce | OWL2PlantUML/owl2plantuml_v17.py:566-572 | no two output equivalences share an unordered pair |
| Relations.EquivalenceFirstKept | OWL2PlantUML/owl2plantuml_v17.py:566-572 | the first resolved occurrence of each pair is kept |
| Relations.EquivalenceRepresented | OWL2PlantUML/owl2plantuml_v17.py:566-572 | every resolved equivalence is represented in the output, by itself or by its reverse |
| Relations.OtherEdgeKept | OWL2PlantUML/owl2plantuml_v17.py:573-576 | a non-equivalence edge is kept iff neither end is "Unknown" |
| Relations.ObjectRelationsIff | OWL2PlantUML/owl2plantuml_v17.py:524-534 | an association is produced iff some property yields it |
| Relations.SuperEdgesIff | OWL2PlantUML/owl2plantuml_v17.py:538-548 | a subclass edge runs from each non-empty, non-"Unknown" superclass to the class, and only those |
| Relations.EquivalenceEdgesIff | OWL2PlantUML/owl2plantuml_v17.py:551-559 | an equivalence edge runs from the class to each non-empty, non-"Unknown" equivalent, and only those |
| Relations.ClassRelationsIff | OWL2PlantUML/owl2plantuml_v17.py:537-559 | a class edge is produced iff some class yields it |
| Relations.InheritanceSuperToSub | OWL2PlantUML/owl2plantuml_v17.py:538-548 | every inheritance edge in the output goes from a listed superclass to its subclass |
| Relations.SuperclassEdgeShown | OWL2PlantUML/owl2plantuml_v17.py:538-576 | every listed, non-"Unknown" superclass of a resolved class yields an output edge |
| Relations.EquivalentEdgeShown | OWL2PlantUML/owl2plantuml_v17.py:551-572 | every listed, non-"Unknown" equivalent of a resolved class is represented once by its pair |
| Render.HasEnumeration | OWL2PlantUML/owl2plantuml_v17.py:686 | `any(enum['name'] == to for enum ...)`: true iff some enumeration has the name |
| Render.RenderEnumeration | OWL2PlantUML/owl2plantuml_v17.py:596-611 | the loop builds `EnumBlock` |
| Render.GroupAttributes | OWL2PlantUML/owl2plantuml_v17.py:614-629 | the map holds exactly the domains with attributes, each with `AttributesOf` |
| Render.RenderClass | OWL2PlantUML/owl2plantuml_v17.py:636-658 | the loops build `ClassBlockWith` |
| Render.RenderClasses | OWL2PlantUML/owl2plantuml_v17.py:614-658 | the class loop builds `ClassBlocks` |
| Render.RenderRelations | OWL2PlantUML/owl2plantuml_v17.py:661-677 | the loop builds `RelationLines` |
| Render.RenderEnumRefs | OWL2PlantUML/owl2plantuml_v17.py:680-687 | the loop builds `RefLines` |
| Render.GeneratePlantUml | OWL2PlantUML/owl2plantuml_v17.py:580-691 | the whole rendering builds `Diagram` |
| Render.TruncateFacts | OWL2PlantUML/owl2plantuml_v17.py:607-608 | at most 50 characters; unchanged iff at most 50; otherwise the first 47 characters plus "..."; truncating twice changes nothing |
| Render.ContainsInDiagram | OWL2PlantUML/owl2plantuml_v17.py:580-691 | whatever one section shows, the diagram shows |
| Render.DiagramFrame | OWL2PlantUML/owl2plantuml_v17.py:582-593 | the diagram starts with the header and legend and ends with "@enduml" |
| Render.EnumBlocksShow | OWL2PlantUML/owl2plantuml_v17.py:596-611 | every enumeration's block appears |
| Render.ClassBlocksShow | OWL2PlantUML/owl2plantuml_v17.py:632-658 | every class's block appears, with its attributes |
| Render.RelationLinesShow | OWL2PlantUML/owl2plantuml_v17.py:661-677 | every relation's line appears |
| Render.RefLinesShow | OWL2PlantUML/owl2plantuml_v17.py:680-687 | every reference's line appears |
| Render.DiagramShowsBlocks | OWL2PlantUML/owl2plantuml_v17.py:596-658 | the diagram holds every enumeration block and every class block |
| Render.DiagramShowsLines | OWL2PlantUML/owl2plantuml_v17.py:661-687 | every relation with two non-empty ends has a non-empty line in the diagram, and every reference to an existing enumeration has its line |
| Render.AttributesSound | OWL2PlantUML/owl2plantuml_v17.py:616-629 | every attribute of a class comes from a DataProperty with that domain |
| Render.AttributesComplete | OWL2PlantUML/owl2plantuml_v17.py:616-629 | every DataProperty with a non-"Unknown" truthy domain becomes an attribute of that class |
| Render.AttributesAppend | OWL2PlantUML/owl2plantuml_v17.py:616-629 | attributes keep the property order |
| Render.RefLinesUnknownTargets | OWL2PlantUML/owl2plantuml_v17.py:685-687 | references to names that are no enumeration produce no text |
| Render.RefLinesSingle | OWL2PlantUML/owl2plantuml_v17.py:680-687 | one reference gives its own line |
| Render.EnumReferenceExample | OWL2PlantUML/owl2plantuml_v17.py:680-687 | that reference is drawn when GenderType is an enumeration |
| Pipeline.ConvertOwlToPlantUml | OWL2PlantUML/owl2plantuml_v17.py:693-711 | the stages run in the source's order and produce `ConvertedText` |
| Pipeline.ConvertedShowsModel | OWL2PlantUML/owl2plantuml_v17.py:700-711 | the output is framed by header and "@enduml" and shows every extracted enumeration and class |
| Pipeline.ConvertedRelationsResolved | OWL2PlantUML/owl2plantuml_v17.py:708 | no relation of the converted model has an "Unknown" end |

## Left out

- XML parsing, ElementTree's `findall` and XPath evaluation: the `Document` datatype holds the
  results of those queries, so their correctness is not modelled.
- File reading and writing, the success and error messages, and the re-raised exception in
  `convert_owl2plantuml`; `main` and its argument parsing.
- Names.LocalName: `urlparse` is modelled for the cases the converter meets (scheme, "//"
  location, path, query, fragment). Not modelled: parameters after ';'; stripping of
  whitespace and control characters; the ValueError on malformed IPv6 brackets; and the
  ValueError `urlsplit` raises for a non-ASCII location whose NFKC form contains '/', '?',
  '#', '@' or ':'. `os.path.basename` is taken as the POSIX version, which splits only on
  '/'; the Windows version also splits on '\\' and drive letters.
- Names.Str: Python's `str()` of a list uses `repr` quoting. The model writes each element's
  text between quotes and does not escape quotes or backslashes inside it.
- The subject filter of the reified statements (source line 425) is modelled as an equality
  test on rdf:subject. The XPath quoting pitfalls of the query text are not modelled.
- `prop_info.copy()` gives shallow copies, so the fanned-out ObjectProperty entries share one
  annotations list. Nothing later mutates it, so the model uses values.
- Namespaces: only the prefixes the extractors look up (rdf, rdfs, owl) affect the output.
  The extractors' local `ns` dictionaries, which fall back to the standard URIs, are modelled
  by `Lookup`.
