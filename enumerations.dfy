/**
 * Enumeration extraction (`extract_enumerations`): an rdf:Description with an rdf:about and
 * an owl:equivalentClass/rdfs:Datatype/owl:oneOf below it names an enumeration whose values
 * are the texts of the RDF collection held by its owl:oneOf.
 */
module Enumerations {
  import opened Common
  import opened Names
  import opened Document

  /** The resource that ends an RDF collection. */
  const RdfNil: string := "http://www.w3.org/1999/02/22-rdf-syntax-ns#nil"

  /** An enumeration: its name, its values in list order and its comment (None: a comment without text). */
  datatype Enumeration = Enumeration(name: string, values: seq<string>, comment: Option<string>)

  /** The value a list node contributes: the text of its rdf:first child, when that text is non-empty. */
  function NodeValue(node: ListNode): (r: seq<string>)
    ensures |r| <= 1
    ensures r != [] <==> node.first.Some? && Truthy(node.first.value.text)
  {
    if node.first.Some? && Truthy(node.first.value.text) then [node.first.value.text.value] else []
  }

  /** The walk ends at a node without rdf:rest and at a node whose rdf:rest is rdf:nil. */
  predicate EndsWalk(node: ListNode)
  {
    node.rest.None? || node.rest.value.resource == Some(RdfNil)
  }

  /**
   * The values collected from the node `node` onwards: each node's value, the walk
   * stopping after a node that ends it and when the next node is missing.
   */
  function CollectValues(node: Option<ListNode>): (r: seq<string>)
    ensures forall i :: 0 <= i < |r| ==> r[i] != ""
    decreases node
  {
    match node
    case None => []
    case Some(n) =>
      if EndsWalk(n) then NodeValue(n)
      else NodeValue(n) + CollectValues(n.rest.value.next)
  }

  /** The `while current_node is not None` walk over an RDF collection. */
  method WalkList(head: Option<ListNode>) returns (values: seq<string>)
    ensures values == CollectValues(head)
  {
    values := [];
    var current := head;
    while current.Some?
      invariant values + CollectValues(current) == CollectValues(head)
      decreases current
    {
      var node := current.value;
      ghost var before := values;
      if node.first.Some? && node.first.value.text.Some? && node.first.value.text.value != "" {
        values := values + [node.first.value.text.value];
      }
      assert values == before + NodeValue(node);
      if node.rest.None? {
        break;
      }
      var restResource := node.rest.value.resource;
      if restResource == Some(RdfNil) {
        break;
      }
      assert CollectValues(current) == NodeValue(node) + CollectValues(node.rest.value.next);
      current := node.rest.value.next;
    }
  }

  /** The enumeration an rdf:Description yields, if any; one without values is dropped. */
  function EnumerationOf(d: DescriptionElem): Option<Enumeration>
  {
    if !Truthy(d.about) || d.oneOf.None? then None
    else
      var values := CollectValues(d.oneOf.value.head);
      if values == [] then None
      else Some(Enumeration(LocalNameOf(d.about), values, if d.comment.Some? then d.comment.value.text else Some("")))
  }

  /** The enumerations of the rdf:Description elements, in document order. */
  function EnumerationsOf(ds: seq<DescriptionElem>): (r: seq<Enumeration>)
    ensures |r| <= |ds|
    ensures forall i :: 0 <= i < |r| ==> r[i].values != []
  {
    if ds == [] then []
    else
      var e := EnumerationOf(ds[|ds| - 1]);
      EnumerationsOf(ds[..|ds| - 1]) + (if e.Some? then [e.value] else [])
  }

  method ExtractEnumerations(ds: seq<DescriptionElem>) returns (enums: seq<Enumeration>)
    ensures enums == EnumerationsOf(ds)
  {
    enums := [];
    for i := 0 to |ds|
      invariant enums == EnumerationsOf(ds[..i])
    {
      assert ds[..i + 1][..i] == ds[..i];
      var desc := ds[i];
      var enumId := desc.about;
      if enumId.None? || enumId.value == "" {
        continue;
      }
      if desc.oneOf.None? {
        continue;
      }
      var name := LocalNameOf(enumId);
      var values := WalkList(desc.oneOf.value.head);
      var commentText := if desc.comment.Some? then desc.comment.value.text else Some("");
      if values != [] {
        enums := enums + [Enumeration(name, values, commentText)];
      }
    }
    assert ds[..|ds|] == ds;
  }

  /** A well-formed RDF collection holding `vals`: each node's rdf:rest leads to the next, the last one's is rdf:nil. */
  function ListOf(vals: seq<string>): (r: Option<ListNode>)
    ensures r.None? <==> vals == []
  {
    if vals == [] then None
    else if |vals| == 1 then Some(ListNode(Some(TextElem(Some(vals[0]))), Some(RestElem(Some(RdfNil), None))))
    else Some(ListNode(Some(TextElem(Some(vals[0]))), Some(RestElem(None, ListOf(vals[1..])))))
  }

  /** The walk reads back every value of a well-formed collection, in list order. */
  lemma {:induction false} CollectListOf(vals: seq<string>)
    requires forall i :: 0 <= i < |vals| ==> vals[i] != ""
    ensures CollectValues(ListOf(vals)) == vals
  {
    if |vals| > 1 {
      CollectListOf(vals[1..]);
      assert [vals[0]] + vals[1..] == vals;
    }
  }

  /** The walk stops at rdf:nil: whatever follows a nil-terminated node is not read. */
  lemma NilStopsWalk(first: Option<TextElem>, after: Option<ListNode>)
    ensures CollectValues(Some(ListNode(first, Some(RestElem(Some(RdfNil), after)))))
         == NodeValue(ListNode(first, None))
  {
  }

  /**
   * An rdf:Description yields an enumeration exactly when it has a non-empty rdf:about, an
   * owl:oneOf, and a non-empty text in its collection; the enumeration is named after the
   * about IRI and holds the collected values.
   */
  lemma EnumerationOfIff(d: DescriptionElem)
    ensures EnumerationOf(d).Some? <==> Truthy(d.about) && d.oneOf.Some? && CollectValues(d.oneOf.value.head) != []
    ensures EnumerationOf(d).Some? ==>
              EnumerationOf(d).value.name == LocalNameOf(d.about) &&
              EnumerationOf(d).value.values == CollectValues(d.oneOf.value.head)
  {
  }

  /** Every enumeration comes from one rdf:Description, and the descriptions' order is kept. */
  lemma {:induction false} EnumerationsFromDescriptions(ds: seq<DescriptionElem>, i: nat)
    requires i < |EnumerationsOf(ds)|
    ensures exists j :: 0 <= j < |ds| && EnumerationOf(ds[j]) == Some(EnumerationsOf(ds)[i])
  {
    var n := |ds| - 1;
    var init := ds[..n];
    if i < |EnumerationsOf(init)| {
      EnumerationsFromDescriptions(init, i);
      var j :| 0 <= j < |init| && EnumerationOf(init[j]) == Some(EnumerationsOf(init)[i]);
      assert ds[j] == init[j];
    } else {
      assert EnumerationOf(ds[n]) == Some(EnumerationsOf(ds)[i]);
    }
  }

  /** Extraction distributes over concatenation: descriptions yield their enumerations independently. */
  lemma {:induction false} EnumerationsAppend(a: seq<DescriptionElem>, b: seq<DescriptionElem>)
    ensures EnumerationsOf(a + b) == EnumerationsOf(a) + EnumerationsOf(b)
  {
    if b != [] {
      var n := |b| - 1;
      assert (a + b)[..|a + b| - 1] == a + b[..n];
      EnumerationsAppend(a, b[..n]);
    } else {
      assert a + b == a;
    }
  }
}
