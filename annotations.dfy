/** Annotation extraction (`extract_annotations`): owl:Annotation children, then rdfs:comment children. */
module Annotations {
  import opened Common
  import opened Names
  import opened Document

  /** A {property, value} pair; the value of a comment without text is None. */
  datatype Annotation = Annotation(property: string, value: Option<string>)

  /**
   * The annotation an owl:Annotation child yields: the local name of its property's IRI
   * ("Unknown" when property or IRI is missing) with its literal's text, provided both are
   * non-empty. normalize_value leaves both strings as they are (NormalizeValue's contract).
   */
  function ExplicitAnnotation(a: AnnotationElem): Option<Annotation>
  {
    var name := LocalNameOf(if a.property.Some? then a.property.value.iri else None);
    var value := if a.literal.Some? then a.literal.value.text else None;
    if name != "" && Truthy(value) then Some(Annotation(name, value)) else None
  }

  /** The annotations of the owl:Annotation children, in order. */
  function ExplicitAnnotations(elems: seq<AnnotationElem>): (r: seq<Annotation>)
    ensures |r| <= |elems|
    ensures forall i :: 0 <= i < |r| ==> r[i].property != "" && Truthy(r[i].value)
  {
    if elems == [] then []
    else
      var a := ExplicitAnnotation(elems[|elems| - 1]);
      ExplicitAnnotations(elems[..|elems| - 1]) + (if a.Some? then [a.value] else [])
  }

  /** Explicit annotations keep the order of the owl:Annotation children. */
  lemma {:induction false} ExplicitAnnotationsAppend(a: seq<AnnotationElem>, b: seq<AnnotationElem>)
    ensures ExplicitAnnotations(a + b) == ExplicitAnnotations(a) + ExplicitAnnotations(b)
  {
    if b == [] {
      assert a + b == a;
    } else {
      var n := |b| - 1;
      assert (a + b)[..|a + b| - 1] == a + b[..n];
      assert (a + b)[|a + b| - 1] == b[n];
      ExplicitAnnotationsAppend(a, b[..n]);
    }
  }

  /** Every explicit annotation is the one some owl:Annotation child yields. */
  lemma {:induction false} ExplicitAnnotationsSound(elems: seq<AnnotationElem>, k: nat)
    requires k < |ExplicitAnnotations(elems)|
    ensures exists i :: 0 <= i < |elems| && ExplicitAnnotation(elems[i]) == Some(ExplicitAnnotations(elems)[k])
  {
    var n := |elems| - 1;
    var init := elems[..n];
    var a := ExplicitAnnotation(elems[n]);
    assert ExplicitAnnotations(elems) == ExplicitAnnotations(init) + (if a.Some? then [a.value] else []);
    if k < |ExplicitAnnotations(init)| {
      ExplicitAnnotationsSound(init, k);
      var i :| 0 <= i < |init| && ExplicitAnnotation(init[i]) == Some(ExplicitAnnotations(init)[k]);
      assert init[i] == elems[i];
    } else {
      assert ExplicitAnnotation(elems[n]) == Some(ExplicitAnnotations(elems)[k]);
    }
  }

  /** Every owl:Annotation child with a non-empty property name and literal text yields its annotation. */
  lemma {:induction false} ExplicitAnnotationsComplete(elems: seq<AnnotationElem>, i: nat)
    requires i < |elems| && ExplicitAnnotation(elems[i]).Some?
    ensures ExplicitAnnotation(elems[i]).value in ExplicitAnnotations(elems)
  {
    var n := |elems| - 1;
    var init := elems[..n];
    var a := ExplicitAnnotation(elems[n]);
    assert ExplicitAnnotations(elems) == ExplicitAnnotations(init) + (if a.Some? then [a.value] else []);
    if i < n {
      assert init[i] == elems[i];
      ExplicitAnnotationsComplete(init, i);
    }
  }

  /** One "comment" annotation per rdfs:comment child, in order. */
  function CommentAnnotations(comments: seq<TextElem>): (r: seq<Annotation>)
    ensures |r| == |comments|
    ensures forall i :: 0 <= i < |r| ==> r[i] == Annotation("comment", comments[i].text)
  {
    if comments == [] then []
    else CommentAnnotations(comments[..|comments| - 1]) + [Annotation("comment", comments[|comments| - 1].text)]
  }

  /** extract_annotations: the explicit annotations followed by the comments. */
  function AnnotationsOf(e: Annotated): seq<Annotation>
  {
    ExplicitAnnotations(e.annotations) + CommentAnnotations(e.comments)
  }

  method ExtractAnnotations(e: Annotated) returns (anns: seq<Annotation>)
    ensures anns == AnnotationsOf(e)
  {
    anns := [];
    var elems := e.annotations;
    for i := 0 to |elems|
      invariant anns == ExplicitAnnotations(elems[..i])
    {
      assert elems[..i + 1][..i] == elems[..i];
      var a := elems[i];
      var propIri := if a.property.Some? then a.property.value.iri else None;
      var name := LocalNameOf(propIri);
      var value := if a.literal.Some? then a.literal.value.text else None;
      if name != "" && value.Some? && value.value != "" {
        anns := anns + [Annotation(name, value)];
      }
    }
    assert elems[..|elems|] == elems;
    var comments := e.comments;
    ghost var explicit := anns;
    for i := 0 to |comments|
      invariant anns == explicit + CommentAnnotations(comments[..i])
    {
      assert comments[..i + 1][..i] == comments[..i];
      anns := anns + [Annotation("comment", comments[i].text)];
    }
    assert comments[..|comments|] == comments;
  }

  /** Every comment child yields an annotation, and only owl:Annotation children can be dropped. */
  lemma AnnotationsBounds(e: Annotated)
    ensures |e.comments| <= |AnnotationsOf(e)| <= |e.annotations| + |e.comments|
    ensures forall i :: 0 <= i < |AnnotationsOf(e)| && AnnotationsOf(e)[i].property != "comment"
              ==> Truthy(AnnotationsOf(e)[i].value)
  {
    var x := ExplicitAnnotations(e.annotations);
    var c := CommentAnnotations(e.comments);
    assert forall i :: |x| <= i < |x| + |c| ==> AnnotationsOf(e)[i] == c[i - |x|];
  }
}
