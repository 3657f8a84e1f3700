/** Enumeration references (`extract_enum_references`): data properties whose range name follows the "...Type" convention. */
module EnumRefs {
  import opened Common
  import opened Properties

  /** A `{from, to, property}` record: the domain class, the range name and the property name. */
  datatype EnumRef = EnumRef(from: string, to: string, property: string)

  /** The naming convention: a data property with a domain and a range whose name ends with "Type". */
  predicate RefersToEnum(p: Property)
  {
    p.kind == DataProperty && Truthy(p.domain) && Truthy(p.range) && EndsWith(p.range.value, "Type")
  }

  /** The record a property yields; `normalize_value` leaves its strings as they are. */
  function RefOf(p: Property): (r: EnumRef)
    requires RefersToEnum(p)
    ensures r.from == p.domain.value && r.to == p.range.value && r.property == p.name
    ensures EndsWith(r.to, "Type") && r.from != ""
  {
    EnumRef(p.domain.value, p.range.value, p.name)
  }

  /** The records of the properties that follow the convention, in property order. */
  function EnumRefsOf(ps: seq<Property>): (r: seq<EnumRef>)
    ensures |r| <= |ps|
  {
    if ps == [] then []
    else
      var p := ps[|ps| - 1];
      EnumRefsOf(ps[..|ps| - 1]) + (if RefersToEnum(p) then [RefOf(p)] else [])
  }

  method ExtractEnumReferences(ps: seq<Property>) returns (refs: seq<EnumRef>)
    ensures refs == EnumRefsOf(ps)
  {
    refs := [];
    for i := 0 to |ps|
      invariant refs == EnumRefsOf(ps[..i])
    {
      assert ps[..i + 1][..i] == ps[..i];
      if RefersToEnum(ps[i]) {
        refs := refs + [RefOf(ps[i])];
      }
    }
    assert ps[..|ps|] == ps;
  }

  // ---------------------------------------------------------------------------
  // Properties of the derivation

  /** The records of a concatenation are the records of each part, in order. */
  lemma {:induction false} EnumRefsAppend(a: seq<Property>, b: seq<Property>)
    ensures EnumRefsOf(a + b) == EnumRefsOf(a) + EnumRefsOf(b)
  {
    if b == [] {
      assert a + b == a;
    } else {
      var n := |b| - 1;
      assert (a + b)[..|a + b| - 1] == a + b[..n];
      assert (a + b)[|a + b| - 1] == b[n];
      EnumRefsAppend(a, b[..n]);
    }
  }

  /** A single property yields exactly its record when it follows the convention, and nothing otherwise. */
  lemma EnumRefsSingle(p: Property)
    ensures EnumRefsOf([p]) == if RefersToEnum(p) then [EnumRef(p.domain.value, p.range.value, p.name)] else []
  {
    assert [p][..0] == [];
  }

  /** A record is derived exactly when some property following the convention yields it. */
  lemma {:induction false} EnumRefsIff(ps: seq<Property>, r: EnumRef)
    ensures r in EnumRefsOf(ps) <==> exists i :: 0 <= i < |ps| && RefersToEnum(ps[i]) && r == RefOf(ps[i])
  {
    if ps != [] {
      var n := |ps| - 1;
      var init := ps[..n];
      EnumRefsIff(init, r);
      if r in EnumRefsOf(ps) && r !in EnumRefsOf(init) {
        assert RefersToEnum(ps[n]) && r == RefOf(ps[n]);
      }
      if exists i :: 0 <= i < |ps| && RefersToEnum(ps[i]) && r == RefOf(ps[i]) {
        var i :| 0 <= i < |ps| && RefersToEnum(ps[i]) && r == RefOf(ps[i]);
        if i < n {
          assert init[i] == ps[i];
        }
      }
    }
  }

  /** Every derived record points at a "...Type" name from a non-empty domain. */
  lemma {:induction false} EnumRefsShape(ps: seq<Property>)
    ensures forall k :: 0 <= k < |EnumRefsOf(ps)| ==> EndsWith(EnumRefsOf(ps)[k].to, "Type") && EnumRefsOf(ps)[k].from != ""
  {
    if ps != [] {
      var n := |ps| - 1;
      EnumRefsShape(ps[..n]);
    }
  }

  /**
   * The `from` of a record is not checked against the "Unknown" placeholder: a data property
   * whose domain could not be resolved still yields a record from "Unknown".
   */
  lemma UnknownDomainKept()
    ensures EnumRefsOf([Property("gender", DataProperty, Some("Unknown"), Some("GenderType"), [])])
      == [EnumRef("Unknown", "GenderType", "gender")]
  {
    EnumRefsSingle(Property("gender", DataProperty, Some("Unknown"), Some("GenderType"), []));
  }

  /** The reference a data property `gender` of `Patient` with range `GenderType` gives. */
  lemma GenderReference()
    ensures EnumRefsOf([Property("gender", DataProperty, Some("Patient"), Some("GenderType"), [])]) ==
      [EnumRef("Patient", "GenderType", "gender")]
  {
    var p := Property("gender", DataProperty, Some("Patient"), Some("GenderType"), []);
    assert EndsWith("GenderType", "Type") by {
      assert "GenderType"[6..] == "Type";
    }
    EnumRefsSingle(p);
  }
}
