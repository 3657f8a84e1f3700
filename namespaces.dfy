/** Namespace resolution (`parse_namespaces`): declared prefixes of the root element, then four defaults. */
module Namespaces {
  import opened Common

  const XmlNamespaceKeyPrefix: string := "{http://www.w3.org/XML/1998/namespace}"
  const RdfUri: string := "http://www.w3.org/1999/02/22-rdf-syntax-ns#"
  const RdfsUri: string := "http://www.w3.org/2000/01/rdf-schema#"
  const OwlUri: string := "http://www.w3.org/2002/07/owl#"
  const XsdUri: string := "http://www.w3.org/2001/XMLSchema#"

  /** `key.split(':')[-1]`: the text after the last ':', or the whole key when it has none. */
  function AfterLastColon(key: string): (r: string)
    ensures ':' !in r
  {
    if key == [] then []
    else if key[|key| - 1] == ':' then []
    else AfterLastColon(key[..|key| - 1]) + [key[|key| - 1]]
  }

  /** The prefix is the tail of the key that follows its last ':' (all of it when there is none). */
  lemma {:induction false} AfterLastColonIsTail(key: string)
    ensures EndsWith(key, AfterLastColon(key))
    ensures |AfterLastColon(key)| < |key| ==> key[|key| - |AfterLastColon(key)| - 1] == ':'
  {
    if key != [] && key[|key| - 1] != ':' {
      var n := |key|;
      var init := key[..n - 1];
      AfterLastColonIsTail(init);
      var ri := AfterLastColon(init);
      assert AfterLastColon(key) == ri + [key[n - 1]];
      assert init[n - 1 - |ri|..] == ri;
      assert key[n - 1 - |ri|..] == init[n - 1 - |ri|..] + [key[n - 1]];
    }
  }

  /** The attribute keys that declare a prefix: XML-namespace attributes and `xmlns:` ones. */
  predicate IsNamespaceKey(key: string)
  {
    StartsWith(key, XmlNamespaceKeyPrefix) || StartsWith(key, "xmlns:")
  }

  /** The attribute `attr` declares prefix `p`. */
  predicate Declares(attr: (string, string), p: string)
  {
    IsNamespaceKey(attr.0) && AfterLastColon(attr.0) == p
  }

  /** The prefixes declared by the root attributes, in attribute order (a later declaration wins). */
  function Declared(attrs: seq<(string, string)>): map<string, string>
  {
    if attrs == [] then map[]
    else
      var m := Declared(attrs[..|attrs| - 1]);
      var attr := attrs[|attrs| - 1];
      if IsNamespaceKey(attr.0) then m[AfterLastColon(attr.0) := attr.1] else m
  }

  /** The mapping completed with the well-known URIs of rdf, rdfs, owl and xsd where they are missing. */
  function WithDefaults(m: map<string, string>): (r: map<string, string>)
    ensures r.Keys == m.Keys + {"rdf", "rdfs", "owl", "xsd"}
    ensures forall p :: p in m ==> r[p] == m[p]
    ensures "rdf" !in m ==> r["rdf"] == RdfUri
    ensures "rdfs" !in m ==> r["rdfs"] == RdfsUri
    ensures "owl" !in m ==> r["owl"] == OwlUri
    ensures "xsd" !in m ==> r["xsd"] == XsdUri
  {
    var m1 := if "rdf" in m then m else m["rdf" := RdfUri];
    var m2 := if "rdfs" in m1 then m1 else m1["rdfs" := RdfsUri];
    var m3 := if "owl" in m2 then m2 else m2["owl" := OwlUri];
    if "xsd" in m3 then m3 else m3["xsd" := XsdUri]
  }

  /** parse_namespaces over the root element's attributes, in their order. */
  method ParseNamespaces(attrs: seq<(string, string)>) returns (ns: map<string, string>)
    ensures ns == WithDefaults(Declared(attrs))
  {
    ns := map[];
    for i := 0 to |attrs|
      invariant ns == Declared(attrs[..i])
    {
      assert attrs[..i + 1][..i] == attrs[..i];
      var key := attrs[i].0;
      if StartsWith(key, XmlNamespaceKeyPrefix) || StartsWith(key, "xmlns:") {
        var prefix := AfterLastColon(key);
        ns := ns[prefix := attrs[i].1];
      }
    }
    assert attrs[..|attrs|] == attrs;
    if "rdf" !in ns {
      ns := ns["rdf" := RdfUri];
    }
    if "rdfs" !in ns {
      ns := ns["rdfs" := RdfsUri];
    }
    if "owl" !in ns {
      ns := ns["owl" := OwlUri];
    }
    if "xsd" !in ns {
      ns := ns["xsd" := XsdUri];
    }
  }

  /** A prefix is declared exactly when some root attribute declares it. */
  lemma {:induction false} DeclaredKeys(attrs: seq<(string, string)>, p: string)
    ensures p in Declared(attrs) <==> exists i :: 0 <= i < |attrs| && Declares(attrs[i], p)
  {
    if attrs != [] {
      var n := |attrs| - 1;
      var init := attrs[..n];
      DeclaredKeys(init, p);
      assert forall i :: 0 <= i < n ==> init[i] == attrs[i];
      assert p in Declared(attrs) <==> p in Declared(init) || Declares(attrs[n], p);
      if p in Declared(attrs) && !Declares(attrs[n], p) {
        var i :| 0 <= i < n && Declares(init[i], p);
        assert Declares(attrs[i], p);
      }
    }
  }

  /** A declared prefix is bound to the value of the last attribute that declares it. */
  lemma {:induction false} DeclaredValue(attrs: seq<(string, string)>, p: string, i: nat)
    requires i < |attrs| && Declares(attrs[i], p)
    requires forall j :: i < j < |attrs| ==> !Declares(attrs[j], p)
    ensures p in Declared(attrs) && Declared(attrs)[p] == attrs[i].1
  {
    var init := attrs[..|attrs| - 1];
    if i < |init| {
      assert init[i] == attrs[i];
      assert forall j :: i < j < |init| ==> init[j] == attrs[j];
      DeclaredValue(init, p, i);
    }
  }

  /** `namespaces.get(prefix, default)`, as each extractor reads the mapping. */
  function Lookup(ns: map<string, string>, prefix: string, default: string): string
  {
    if prefix in ns then ns[prefix] else default
  }

  /** Every extractor sees the declared rdfs URI, or the standard one when the document declares none. */
  lemma RdfsResolved(attrs: seq<(string, string)>)
    ensures Lookup(WithDefaults(Declared(attrs)), "rdfs", "")
         == if "rdfs" in Declared(attrs) then Declared(attrs)["rdfs"] else RdfsUri
  {
  }
}
