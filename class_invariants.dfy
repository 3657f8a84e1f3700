/**
 * What the class table promises: names are pairwise distinct, no superclass or equivalence
 * list holds a name twice (or the empty name), every merge only extends the entry it finds or
 * appends a new one, and an equivalence group links each member to every other member.
 */
module ClassInvariants {
  import opened Common
  import opened Names
  import opened Document
  import opened Annotations
  import opened Classes

  // ---------------------------------------------------------------------------
  // Well-formed tables

  /** Each entry is the first one with its name: no two entries share a name. */
  predicate DistinctNames(t: Table)
  {
    forall i :: 0 <= i < |t| ==> IndexOfName(t, t[i].name) == i
  }

  predicate ValidTable(t: Table)
  {
    DistinctNames(t) &&
    forall k :: 0 <= k < |t| ==> CleanNames(t[k].subClassOf) && CleanNames(t[k].equivalentTo)
  }

  /** An absent name may be appended to a table with distinct names. */
  lemma AppendDistinct(t: Table, e: ClassEntity)
    requires DistinctNames(t) && !Named(t, e.name)
    ensures DistinctNames(t + [e])
  {
    assert forall j :: 0 <= j < |t| ==> (t + [e])[j] == t[j];
  }

  /** A name added to a clean list keeps it clean. */
  lemma AppendNewClean(xs: seq<string>, x: string)
    requires CleanNames(xs) && x != ""
    ensures CleanNames(AppendNew(xs, x))
  {
  }

  /** Replacing an entry by one with the same name and clean lists keeps a table valid. */
  lemma UpdateValid(t: Table, k: nat, e: ClassEntity)
    requires ValidTable(t) && k < |t| && e.name == t[k].name && CleanNames(e.subClassOf) && CleanNames(e.equivalentTo)
    ensures ValidTable(t[k := e])
  {
    var u := t[k := e];
    forall i | 0 <= i < |u|
      ensures IndexOfName(u, u[i].name) == i
    {
      assert u[i].name == t[i].name;
      assert IndexOfName(t, t[i].name) == i;
    }
  }

  lemma WithSuperclassValid(t: Table, sub: string, sup: string)
    requires ValidTable(t) && sup != ""
    ensures ValidTable(WithSuperclass(t, sub, sup))
  {
    var k := IndexOfName(t, sub);
    if k < |t| {
      AppendNewClean(t[k].subClassOf, sup);
      UpdateValid(t, k, t[k].(subClassOf := AppendNew(t[k].subClassOf, sup)));
    } else {
      AppendDistinct(t, ClassEntity(sub, [], [sup], []));
    }
  }

  lemma WithEquivalentValid(t: Table, name: string, other: string)
    requires ValidTable(t) && other != ""
    ensures ValidTable(WithEquivalent(t, name, other))
  {
    var k := IndexOfName(t, name);
    if k < |t| {
      AppendNewClean(t[k].equivalentTo, other);
      UpdateValid(t, k, t[k].(equivalentTo := AppendNew(t[k].equivalentTo, other)));
    } else {
      AppendDistinct(t, ClassEntity(name, [], [], [other]));
    }
  }

  /** An entry with a new name and clean lists may be appended to a valid table. */
  lemma AppendValid(t: Table, e: ClassEntity)
    requires ValidTable(t) && !Named(t, e.name) && CleanNames(e.subClassOf) && CleanNames(e.equivalentTo)
    ensures ValidTable(t + [e])
  {
    AppendDistinct(t, e);
    assert forall k :: 0 <= k < |t| ==> (t + [e])[k] == t[k];
  }

  /** One declaration keeps a valid table valid. */
  lemma DeclareStepValid(t: Table, c: ClassElem)
    requires ValidTable(t)
    ensures ValidTable(DeclareStep(t, c))
  {
    if DeclaredName(c).Some? && !Named(t, DeclaredName(c).value) {
      var e := DeclaredEntity(c);
      InlineNamesClean(c.subClassOf);
      InlineNamesClean(c.equivalentClass);
      AppendValid(t, e);
    }
  }

  lemma {:induction false} DeclaredValid(cs: seq<ClassElem>)
    ensures ValidTable(DeclaredClasses(cs))
  {
    if cs != [] {
      var t := DeclaredClasses(cs[..|cs| - 1]);
      DeclaredValid(cs[..|cs| - 1]);
      DeclareStepValid(t, cs[|cs| - 1]);
    }
  }

  // ---------------------------------------------------------------------------
  // What the declarations give

  /** Element `i` declares a name that no earlier element declares. */
  predicate FirstDeclaration(cs: seq<ClassElem>, i: nat)
  {
    i < |cs| && DeclaredName(cs[i]).Some? &&
    forall j :: 0 <= j < i ==> DeclaredName(cs[j]) != DeclaredName(cs[i])
  }

  /** Some class element declares the name `x`. */
  predicate Declares(cs: seq<ClassElem>, x: string)
  {
    exists i :: 0 <= i < |cs| && DeclaredName(cs[i]) == Some(x)
  }

  /** One declaration adds exactly the name it declares. */
  lemma DeclareStepNamed(t: Table, c: ClassElem, x: string)
    ensures Named(DeclareStep(t, c), x) <==> Named(t, x) || DeclaredName(c) == Some(x)
  {
    if DeclaredName(c).Some? && !Named(t, DeclaredName(c).value) {
      IndexOfAppend(t, DeclaredEntity(c), x);
    }
  }

  lemma DeclaresSnoc(cs: seq<ClassElem>, x: string)
    requires cs != []
    ensures Declares(cs, x) <==> Declares(cs[..|cs| - 1], x) || DeclaredName(cs[|cs| - 1]) == Some(x)
  {
    var n := |cs| - 1;
    assert cs == cs[..n] + [cs[n]];
    SomeSnoc(cs, cs[..n], cs[n], c => DeclaredName(c) == Some(x));
  }

  /** The declared classes are named exactly by the names the class elements declare. */
  lemma {:induction false} DeclaredNamedIff(cs: seq<ClassElem>, x: string)
    ensures Named(DeclaredClasses(cs), x) <==> Declares(cs, x)
  {
    if cs != [] {
      var n := |cs| - 1;
      var t := DeclaredClasses(cs[..n]);
      assert DeclaredClasses(cs) == DeclareStep(t, cs[n]);
      DeclaredNamedIff(cs[..n], x);
      DeclareStepNamed(t, cs[n], x);
      DeclaresSnoc(cs, x);
    }
  }

  lemma FirstDeclarationOfPrefix(cs: seq<ClassElem>, n: nat, i: nat)
    requires n <= |cs| && FirstDeclaration(cs[..n], i)
    ensures FirstDeclaration(cs, i) && cs[i] == cs[..n][i]
  {
    forall j | 0 <= j < i
      ensures DeclaredName(cs[j]) != DeclaredName(cs[i])
    {
      assert cs[j] == cs[..n][j];
    }
  }

  /** A declaration leaves the entry of a name already present where and as it was. */
  lemma DeclareStepKeeps(t: Table, c: ClassElem, x: string)
    requires Named(t, x)
    ensures var r := DeclareStep(t, c);
      IndexOfName(r, x) == IndexOfName(t, x) && r[IndexOfName(t, x)] == t[IndexOfName(t, x)]
  {
    if DeclaredName(c).Some? && !Named(t, DeclaredName(c).value) {
      IndexOfAppend(t, DeclaredEntity(c), x);
    }
  }

  /** A declaration of a new name appends its entity, found under that name. */
  lemma DeclareStepAdds(t: Table, c: ClassElem)
    requires DeclaredName(c).Some? && !Named(t, DeclaredName(c).value)
    ensures var r := DeclareStep(t, c);
      Named(r, DeclaredName(c).value) && r[IndexOfName(r, DeclaredName(c).value)] == DeclaredEntity(c)
  {
    IndexOfAppend(t, DeclaredEntity(c), DeclaredName(c).value);
  }

  lemma FirstDeclarationOfInit(cs: seq<ClassElem>, i: nat)
    requires FirstDeclaration(cs, i) && i < |cs| - 1
    ensures FirstDeclaration(cs[..|cs| - 1], i) && cs[..|cs| - 1][i] == cs[i]
  {
    var init := cs[..|cs| - 1];
    forall j | 0 <= j < i
      ensures DeclaredName(init[j]) != DeclaredName(init[i])
    {
      assert init[j] == cs[j];
    }
  }

  /** The first element to declare a name has no earlier element declaring it. */
  lemma FirstDeclarationFresh(cs: seq<ClassElem>, i: nat)
    requires FirstDeclaration(cs, i)
    ensures !Declares(cs[..i], DeclaredName(cs[i]).value)
  {
    var init := cs[..i];
    forall j | 0 <= j < i
      ensures DeclaredName(init[j]) != DeclaredName(cs[i])
    {
      assert init[j] == cs[j];
    }
  }

  /** The entry of the name `c` declares is the entity `c` gives. */
  predicate EntryOf(t: Table, c: ClassElem)
  {
    DeclaredName(c).Some? && Named(t, DeclaredName(c).value) &&
    t[IndexOfName(t, DeclaredName(c).value)] == DeclaredEntity(c)
  }

  /** The last element, when it is the first to declare its name, gives that name's entry. */
  lemma DeclaredEntryLast(cs: seq<ClassElem>)
    requires cs != [] && FirstDeclaration(cs, |cs| - 1)
    ensures EntryOf(DeclaredClasses(cs), cs[|cs| - 1])
  {
    var n := |cs| - 1;
    FirstDeclarationFresh(cs, n);
    DeclaredNamedIff(cs[..n], DeclaredName(cs[n]).value);
    DeclareStepAdds(DeclaredClasses(cs[..n]), cs[n]);
  }

  /** An entry a table holds survives one more declaration. */
  lemma DeclaredEntryKept(t: Table, c: ClassElem, next: ClassElem)
    requires EntryOf(t, c)
    ensures EntryOf(DeclareStep(t, next), c)
  {
    DeclareStepKeeps(t, next, DeclaredName(c).value);
  }

  /**
   * The first element to declare a name gives that name's entry: its annotations and the
   * superclass and equivalent-class names written inside it.
   */
  lemma {:induction false} DeclaredEntry(cs: seq<ClassElem>, i: nat)
    requires FirstDeclaration(cs, i)
    ensures EntryOf(DeclaredClasses(cs), cs[i])
  {
    if i < |cs| - 1 {
      FirstDeclarationOfInit(cs, i);
      DeclaredEntry(cs[..|cs| - 1], i);
      DeclaredEntryKept(DeclaredClasses(cs[..|cs| - 1]), cs[i], cs[|cs| - 1]);
    } else {
      DeclaredEntryLast(cs);
    }
  }

  /** Every declared entry is the entity of the first element to declare its name; nothing else is declared. */
  lemma {:induction false} DeclaredEntrySource(cs: seq<ClassElem>, k: nat)
    requires k < |DeclaredClasses(cs)|
    ensures exists i: nat :: FirstDeclaration(cs, i) && DeclaredClasses(cs)[k] == DeclaredEntity(cs[i])
  {
    assert cs != [];
    var n := |cs| - 1;
    var init := cs[..n];
    var t := DeclaredClasses(init);
    if k < |t| {
      DeclaredEntrySource(init, k);
      var i: nat :| FirstDeclaration(init, i) && t[k] == DeclaredEntity(init[i]);
      FirstDeclarationOfPrefix(cs, n, i);
    } else {
      assert DeclaredClasses(cs) == DeclareStep(t, cs[n]) != t;
      var name := DeclaredName(cs[n]).value;
      assert !Named(t, name) && DeclaredClasses(cs) == t + [DeclaredEntity(cs[n])];
      DeclaredNamedIff(init, name);
      forall j | 0 <= j < n
        ensures DeclaredName(cs[j]) != DeclaredName(cs[n])
      {
        assert cs[j] == init[j];
      }
      assert FirstDeclaration(cs, n);
    }
  }

  lemma {:induction false} WithSuperclassesValid(t: Table, ps: seq<(string, string)>)
    requires ValidTable(t) && NamedPairs(ps)
    ensures ValidTable(WithSuperclasses(t, ps))
  {
    if ps != [] {
      var init := ps[..|ps| - 1];
      var t' := WithSuperclasses(t, init);
      WithSuperclassesValid(t, init);
      WithSuperclassValid(t', ps[|ps| - 1].0, ps[|ps| - 1].1);
    }
  }

  lemma {:induction false} WithEquivalentsValid(t: Table, ps: seq<(string, string)>)
    requires ValidTable(t) && NamedPairs(ps)
    ensures ValidTable(WithEquivalents(t, ps))
  {
    if ps != [] {
      var init := ps[..|ps| - 1];
      var t' := WithEquivalents(t, init);
      WithEquivalentsValid(t, init);
      WithEquivalentValid(t', ps[|ps| - 1].0, ps[|ps| - 1].1);
    }
  }

  /** After extract_classes, class names are pairwise distinct and no name list holds a duplicate or an empty name. */
  lemma ClassTableValid(doc: Document)
    ensures ValidTable(ClassTable(doc))
  {
    var declared := DeclaredClasses(doc.classElems);
    DeclaredValid(doc.classElems);
    var withAxioms := WithSuperclasses(declared, AxiomPairs(doc.subClassAxioms));
    WithSuperclassesValid(declared, AxiomPairs(doc.subClassAxioms));
    var withStatements := WithSuperclasses(withAxioms, StatementPairs(doc.rdfElems));
    WithSuperclassesValid(withAxioms, StatementPairs(doc.rdfElems));
    GroupLinksNamed(EquivalenceGroups(doc.equivalenceAxioms));
    WithEquivalentsValid(withStatements, GroupLinks(EquivalenceGroups(doc.equivalenceAxioms)));
  }

  // ---------------------------------------------------------------------------
  // Merges only extend

  /** Every entry of `t` is still in `t'` at its place, with its name and annotations, and its lists only grown at the end. */
  predicate Extends(t: Table, t': Table)
  {
    |t| <= |t'| &&
    forall k :: 0 <= k < |t| ==>
      t'[k].name == t[k].name && t'[k].annotations == t[k].annotations &&
      t[k].subClassOf <= t'[k].subClassOf && t[k].equivalentTo <= t'[k].equivalentTo
  }

  lemma PrefixTrans(a: seq<string>, b: seq<string>, c: seq<string>)
    requires a <= b && b <= c
    ensures a <= c
  {
    assert b[..|a|] == c[..|b|][..|a|];
  }

  lemma ExtendsTrans(t1: Table, t2: Table, t3: Table)
    requires Extends(t1, t2) && Extends(t2, t3)
    ensures Extends(t1, t3)
  {
    forall k | 0 <= k < |t1|
      ensures t1[k].subClassOf <= t3[k].subClassOf && t1[k].equivalentTo <= t3[k].equivalentTo
    {
      PrefixTrans(t1[k].subClassOf, t2[k].subClassOf, t3[k].subClassOf);
      PrefixTrans(t1[k].equivalentTo, t2[k].equivalentTo, t3[k].equivalentTo);
    }
  }

  /** A name found in `t` is found at the same index in every extension of `t`. */
  lemma IndexStable(t: Table, t': Table, name: string)
    requires Extends(t, t') && Named(t, name)
    ensures IndexOfName(t', name) == IndexOfName(t, name)
  {
    var k := IndexOfName(t, name);
    assert t'[k].name == name;
  }

  /** The entry named `sub` lists `sup` among its superclasses. */
  predicate HasSuperclass(t: Table, sub: string, sup: string)
  {
    Named(t, sub) && sup in t[IndexOfName(t, sub)].subClassOf
  }

  /** The entry named `name` lists `other` among its equivalent classes. */
  predicate HasEquivalent(t: Table, name: string, other: string)
  {
    Named(t, name) && other in t[IndexOfName(t, name)].equivalentTo
  }

  lemma PrefixMember(a: seq<string>, b: seq<string>, x: string)
    requires a <= b && x in a
    ensures x in b
  {
    var i :| 0 <= i < |a| && a[i] == x;
    assert b[i] == x;
  }

  /** What a table records survives every extension of it. */
  lemma RecordsStable(t: Table, t': Table, x: string, y: string)
    requires Extends(t, t')
    ensures HasSuperclass(t, x, y) ==> HasSuperclass(t', x, y)
    ensures HasEquivalent(t, x, y) ==> HasEquivalent(t', x, y)
  {
    if Named(t, x) {
      IndexStable(t, t', x);
      var k := IndexOfName(t, x);
      if y in t[k].subClassOf {
        PrefixMember(t[k].subClassOf, t'[k].subClassOf, y);
      }
      if y in t[k].equivalentTo {
        PrefixMember(t[k].equivalentTo, t'[k].equivalentTo, y);
      }
    }
  }

  lemma WithSuperclassExtends(t: Table, sub: string, sup: string)
    ensures Extends(t, WithSuperclass(t, sub, sup))
  {
    var r := WithSuperclass(t, sub, sup);
    var k := IndexOfName(t, sub);
    if k < |t| {
      assert t[k].subClassOf <= r[k].subClassOf;
      assert forall m :: 0 <= m < |t| && m != k ==> r[m] == t[m];
    } else {
      assert forall m :: 0 <= m < |t| ==> r[m] == t[m];
    }
  }

  lemma WithSuperclassRecords(t: Table, sub: string, sup: string)
    ensures HasSuperclass(WithSuperclass(t, sub, sup), sub, sup)
  {
    if Named(t, sub) {
      WithSuperclassExtends(t, sub, sup);
      IndexStable(t, WithSuperclass(t, sub, sup), sub);
    } else {
      IndexOfAppend(t, ClassEntity(sub, [], [sup], []), sub);
    }
  }

  lemma WithEquivalentExtends(t: Table, name: string, other: string)
    ensures Extends(t, WithEquivalent(t, name, other))
  {
    var r := WithEquivalent(t, name, other);
    var k := IndexOfName(t, name);
    if k < |t| {
      assert t[k].equivalentTo <= r[k].equivalentTo;
      assert forall m :: 0 <= m < |t| && m != k ==> r[m] == t[m];
    } else {
      assert forall m :: 0 <= m < |t| ==> r[m] == t[m];
    }
  }

  lemma WithEquivalentRecords(t: Table, name: string, other: string)
    ensures HasEquivalent(WithEquivalent(t, name, other), name, other)
  {
    if Named(t, name) {
      WithEquivalentExtends(t, name, other);
      IndexStable(t, WithEquivalent(t, name, other), name);
    } else {
      IndexOfAppend(t, ClassEntity(name, [], [], [other]), name);
    }
  }

  /**
   * A subclass merge records `sup` for `sub`; it either extends the first entry named `sub`,
   * leaving every other entry as it was, or appends a minimal entry when there is none.
   */
  lemma WithSuperclassShape(t: Table, sub: string, sup: string)
    ensures Extends(t, WithSuperclass(t, sub, sup))
    ensures HasSuperclass(WithSuperclass(t, sub, sup), sub, sup)
    ensures Named(t, sub) ==>
              |WithSuperclass(t, sub, sup)| == |t| &&
              forall m :: 0 <= m < |t| && m != IndexOfName(t, sub) ==> WithSuperclass(t, sub, sup)[m] == t[m]
    ensures Named(t, sub) ==>
              var k := IndexOfName(t, sub);
              WithSuperclass(t, sub, sup)[k] == t[k].(subClassOf := AppendNew(t[k].subClassOf, sup))
    ensures !Named(t, sub) ==> WithSuperclass(t, sub, sup) == t + [ClassEntity(sub, [], [sup], [])]
  {
    var r := WithSuperclass(t, sub, sup);
    if !Named(t, sub) {
      IndexOfAppend(t, ClassEntity(sub, [], [sup], []), sub);
    }
  }

  /**
   * An equivalence merge records `other` for `name`; it either extends the first entry named
   * `name`, leaving every other entry as it was, or appends a minimal entry when there is none.
   */
  lemma WithEquivalentShape(t: Table, name: string, other: string)
    ensures Extends(t, WithEquivalent(t, name, other))
    ensures HasEquivalent(WithEquivalent(t, name, other), name, other)
    ensures Named(t, name) ==>
              |WithEquivalent(t, name, other)| == |t| &&
              forall m :: 0 <= m < |t| && m != IndexOfName(t, name) ==> WithEquivalent(t, name, other)[m] == t[m]
    ensures Named(t, name) ==>
              var k := IndexOfName(t, name);
              WithEquivalent(t, name, other)[k] == t[k].(equivalentTo := AppendNew(t[k].equivalentTo, other))
    ensures !Named(t, name) ==> WithEquivalent(t, name, other) == t + [ClassEntity(name, [], [], [other])]
  {
    if !Named(t, name) {
      IndexOfAppend(t, ClassEntity(name, [], [], [other]), name);
    }
  }

  lemma {:induction false} WithSuperclassesExtend(t: Table, ps: seq<(string, string)>)
    ensures Extends(t, WithSuperclasses(t, ps))
  {
    if ps != [] {
      var init := ps[..|ps| - 1];
      var t' := WithSuperclasses(t, init);
      WithSuperclassesExtend(t, init);
      WithSuperclassExtends(t', ps[|ps| - 1].0, ps[|ps| - 1].1);
      ExtendsTrans(t, t', WithSuperclasses(t, ps));
    } else {
      assert Extends(t, t);
    }
  }

  /** Every merged pair is recorded: its subclass's entry lists its superclass. */
  lemma {:induction false} WithSuperclassesRecorded(t: Table, ps: seq<(string, string)>, i: nat)
    requires i < |ps|
    ensures HasSuperclass(WithSuperclasses(t, ps), ps[i].0, ps[i].1)
  {
    var n := |ps| - 1;
    var init := ps[..n];
    var t' := WithSuperclasses(t, init);
    var r := WithSuperclasses(t, ps);
    if i < n {
      assert init[i] == ps[i];
      WithSuperclassesRecorded(t, init, i);
      WithSuperclassExtends(t', ps[n].0, ps[n].1);
      RecordsStable(t', r, ps[i].0, ps[i].1);
    } else {
      WithSuperclassRecords(t', ps[n].0, ps[n].1);
    }
  }

  // ---------------------------------------------------------------------------
  // Equivalence groups: the links a group yields

  /** No link relates a name to itself. */
  predicate SelfFreeLinks(ps: seq<(string, string)>)
  {
    forall k :: 0 <= k < |ps| ==> ps[k].0 != ps[k].1
  }

  lemma NamedPairsAppend(a: seq<(string, string)>, b: seq<(string, string)>)
    requires NamedPairs(a) && NamedPairs(b)
    ensures NamedPairs(a + b)
  {
    assert forall k :: |a| <= k < |a + b| ==> (a + b)[k] == b[k - |a|];
  }

  lemma SelfFreeLinksAppend(a: seq<(string, string)>, b: seq<(string, string)>)
    requires SelfFreeLinks(a) && SelfFreeLinks(b)
    ensures SelfFreeLinks(a + b)
  {
    assert forall k :: |a| <= k < |a + b| ==> (a + b)[k] == b[k - |a|];
  }

  /** A member's links join it to names of the group: non-empty ones, and other ones when the group has no repetition. */
  lemma {:induction false} PartnerLinksWellFormed(g: seq<string>, i: nat, m: nat)
    requires i < |g| && m <= |g|
    ensures "" !in g ==> NamedPairs(PartnerLinks(g, i, m))
    ensures NoDuplicates(g) ==> SelfFreeLinks(PartnerLinks(g, i, m))
  {
    if m > 0 {
      PartnerLinksWellFormed(g, i, m - 1);
      var extra := if i != m - 1 then [(g[i], g[m - 1])] else [];
      if "" !in g {
        NamedPairsAppend(PartnerLinks(g, i, m - 1), extra);
      }
      if NoDuplicates(g) {
        SelfFreeLinksAppend(PartnerLinks(g, i, m - 1), extra);
      }
    }
  }

  lemma {:induction false} MemberLinksWellFormed(g: seq<string>, n: nat)
    requires n <= |g|
    ensures "" !in g ==> NamedPairs(MemberLinks(g, n))
    ensures NoDuplicates(g) ==> SelfFreeLinks(MemberLinks(g, n))
  {
    if n > 0 {
      MemberLinksWellFormed(g, n - 1);
      PartnerLinksWellFormed(g, n - 1, |g|);
      if "" !in g {
        NamedPairsAppend(MemberLinks(g, n - 1), PartnerLinks(g, n - 1, |g|));
      }
      if NoDuplicates(g) {
        SelfFreeLinksAppend(MemberLinks(g, n - 1), PartnerLinks(g, n - 1, |g|));
      }
    }
  }

  lemma {:induction false} GroupLinksNamed(gs: seq<seq<string>>)
    requires forall g :: g in gs ==> "" !in g
    ensures NamedPairs(GroupLinks(gs))
  {
    if gs != [] {
      var init := gs[..|gs| - 1];
      var g := gs[|gs| - 1];
      assert forall h :: h in init ==> h in gs;
      GroupLinksNamed(init);
      MemberLinksWellFormed(g, |g|);
      NamedPairsAppend(GroupLinks(init), MemberLinks(g, |g|));
    }
  }

  lemma AppendLeft<T>(x: seq<T>, y: seq<T>, k: nat)
    requires k < |x|
    ensures k < |x + y| && (x + y)[k] == x[k]
  {
  }

  lemma AppendRight<T>(x: seq<T>, y: seq<T>, k: nat)
    requires k < |y|
    ensures |x| + k < |x + y| && (x + y)[|x| + k] == y[k]
  {
  }

  /** Where member `i`'s link to position `j` sits among its links: partners before `i` keep their place, later ones move up. */
  function PartnerSlot(i: nat, j: nat): nat
    requires i != j
  {
    if j < i then j else j - 1
  }

  lemma {:induction false} PartnerLinksLength(g: seq<string>, i: nat, m: nat)
    requires i < |g| && m <= |g|
    ensures |PartnerLinks(g, i, m)| == if i < m then m - 1 else m
  {
    if m > 0 {
      PartnerLinksLength(g, i, m - 1);
    }
  }

  /** Member `i` is linked to every partner `g[j]`, `j < m`, other than itself, at its slot. */
  lemma {:induction false} PartnerLinksAt(g: seq<string>, i: nat, m: nat, j: nat)
    requires i < |g| && j < m <= |g| && i != j
    ensures PartnerSlot(i, j) < |PartnerLinks(g, i, m)| && PartnerLinks(g, i, m)[PartnerSlot(i, j)] == (g[i], g[j])
  {
    PartnerLinksLength(g, i, m);
    PartnerLinksLength(g, i, m - 1);
    if j < m - 1 {
      PartnerLinksAt(g, i, m - 1, j);
    }
  }

  lemma MemberLinksSnoc(g: seq<string>, n: nat)
    requires n < |g|
    ensures MemberLinks(g, n + 1) == MemberLinks(g, n) + PartnerLinks(g, n, |g|)
  {
  }

  /** Linking more members keeps every link already made at its place. */
  lemma {:induction false} MemberLinksKeep(g: seq<string>, a: nat, b: nat, k: nat)
    requires a <= b <= |g| && k < |MemberLinks(g, a)|
    ensures k < |MemberLinks(g, b)| && MemberLinks(g, b)[k] == MemberLinks(g, a)[k]
    decreases b - a
  {
    if a < b {
      MemberLinksKeep(g, a + 1, b, k);
    }
  }

  /** Where the link of member `i` to position `j` sits among the links of the members `g[0..n)`. */
  function MemberSlot(g: seq<string>, i: nat, j: nat): nat
    requires i < |g| && i != j
  {
    |MemberLinks(g, i)| + PartnerSlot(i, j)
  }

  /** Member `i`'s links follow those of the members before it. */
  lemma MemberLinksOwn(g: seq<string>, i: nat, j: nat)
    requires i < |g| && j < |g| && i != j
    ensures MemberSlot(g, i, j) < |MemberLinks(g, i + 1)| && MemberLinks(g, i + 1)[MemberSlot(g, i, j)] == (g[i], g[j])
  {
    PartnerLinksAt(g, i, |g|, j);
  }

  /** Each of the members `g[0..n)` is linked to every other position of the group. */
  lemma MemberLinksAt(g: seq<string>, n: nat, i: nat, j: nat)
    requires i < n <= |g| && j < |g| && i != j
    ensures MemberSlot(g, i, j) < |MemberLinks(g, n)| && MemberLinks(g, n)[MemberSlot(g, i, j)] == (g[i], g[j])
  {
    MemberLinksOwn(g, i, j);
    MemberLinksKeep(g, i + 1, n, MemberSlot(g, i, j));
  }

  /** Where the link between positions `i` and `j` of group `gi` sits among the links of all groups. */
  function GroupSlot(gs: seq<seq<string>>, gi: nat, i: nat, j: nat): nat
    requires gi < |gs| && i < |gs[gi]| && i != j
  {
    |GroupLinks(gs[..gi])| + MemberSlot(gs[gi], i, j)
  }

  /** The links of the last group follow those of the groups before it. */
  lemma GroupLinksLast(gs: seq<seq<string>>, i: nat, j: nat)
    requires gs != [] && i < |gs[|gs| - 1]| && j < |gs[|gs| - 1]| && i != j
    ensures var n := |gs| - 1;
      GroupSlot(gs, n, i, j) < |GroupLinks(gs)| && GroupLinks(gs)[GroupSlot(gs, n, i, j)] == (gs[n][i], gs[n][j])
  {
    var n := |gs| - 1;
    var g := gs[n];
    var before := GroupLinks(gs[..n]);
    var own := MemberLinks(g, |g|);
    assert GroupLinks(gs) == before + own;
    MemberLinksAt(g, |g|, i, j);
    AppendRight(before, own, MemberSlot(g, i, j));
  }

  /** Every pair of distinct positions of every group has its link. */
  lemma {:induction false} GroupLinksAt(gs: seq<seq<string>>, gi: nat, i: nat, j: nat)
    requires gi < |gs| && i < |gs[gi]| && j < |gs[gi]| && i != j
    ensures GroupSlot(gs, gi, i, j) < |GroupLinks(gs)| && GroupLinks(gs)[GroupSlot(gs, gi, i, j)] == (gs[gi][i], gs[gi][j])
  {
    var init := gs[..|gs| - 1];
    if gi == |gs| - 1 {
      GroupLinksLast(gs, i, j);
    } else {
      var last := gs[|gs| - 1];
      assert GroupLinks(gs) == GroupLinks(init) + MemberLinks(last, |last|);
      assert init[..gi] == gs[..gi];
      assert init[gi] == gs[gi];
      assert GroupSlot(init, gi, i, j) == GroupSlot(gs, gi, i, j);
      GroupLinksAt(init, gi, i, j);
      AppendLeft(GroupLinks(init), MemberLinks(last, |last|), GroupSlot(gs, gi, i, j));
    }
  }

  // ---------------------------------------------------------------------------
  // Equivalence groups: what merging the links does to the table

  lemma {:induction false} WithEquivalentsExtend(t: Table, ps: seq<(string, string)>)
    ensures Extends(t, WithEquivalents(t, ps))
  {
    if ps != [] {
      var init := ps[..|ps| - 1];
      var t' := WithEquivalents(t, init);
      WithEquivalentsExtend(t, init);
      WithEquivalentExtends(t', ps[|ps| - 1].0, ps[|ps| - 1].1);
      ExtendsTrans(t, t', WithEquivalents(t, ps));
    } else {
      assert Extends(t, t);
    }
  }

  /** Every merged link is recorded: its first name's entry lists its second name. */
  lemma {:induction false} WithEquivalentsRecorded(t: Table, ps: seq<(string, string)>, i: nat)
    requires i < |ps|
    ensures HasEquivalent(WithEquivalents(t, ps), ps[i].0, ps[i].1)
  {
    var n := |ps| - 1;
    var init := ps[..n];
    var t' := WithEquivalents(t, init);
    var r := WithEquivalents(t, ps);
    if i < n {
      assert init[i] == ps[i];
      WithEquivalentsRecorded(t, init, i);
      WithEquivalentExtends(t', ps[n].0, ps[n].1);
      RecordsStable(t', r, ps[i].0, ps[i].1);
    } else {
      WithEquivalentRecords(t', ps[n].0, ps[n].1);
    }
  }

  /** After a group is merged, each member's equivalentTo contains every other member. */
  lemma EquivalenceGroupLinked(t: Table, g: seq<string>)
    ensures forall i, j :: 0 <= i < |g| && 0 <= j < |g| && i != j ==> HasEquivalent(WithEquivalents(t, MemberLinks(g, |g|)), g[i], g[j])
  {
    forall i, j | 0 <= i < |g| && 0 <= j < |g| && i != j
      ensures HasEquivalent(WithEquivalents(t, MemberLinks(g, |g|)), g[i], g[j])
    {
      MemberLinksAt(g, |g|, i, j);
      WithEquivalentsRecorded(t, MemberLinks(g, |g|), MemberSlot(g, i, j));
    }
  }

  /** The entry named `x`, if any, does not list `x` as equivalent to itself. */
  predicate SelfFree(t: Table, x: string)
  {
    Named(t, x) ==> x !in t[IndexOfName(t, x)].equivalentTo
  }

  lemma WithEquivalentSelfFree(t: Table, name: string, other: string, x: string)
    requires name != other && SelfFree(t, x)
    ensures SelfFree(WithEquivalent(t, name, other), x)
  {
    var r := WithEquivalent(t, name, other);
    WithEquivalentShape(t, name, other);
    if Named(t, x) {
      IndexStable(t, r, x);
    } else if Named(r, x) {
      IndexOfAppend(t, ClassEntity(name, [], [], [other]), x);
    }
  }

  /** Links that never relate a name to itself never make a class equivalent to itself. */
  lemma {:induction false} WithEquivalentsSelfFree(t: Table, ps: seq<(string, string)>, x: string)
    requires SelfFreeLinks(ps) && SelfFree(t, x)
    ensures SelfFree(WithEquivalents(t, ps), x)
  {
    if ps != [] {
      var init := ps[..|ps| - 1];
      WithEquivalentsSelfFree(t, init, x);
      WithEquivalentSelfFree(WithEquivalents(t, init), ps[|ps| - 1].0, ps[|ps| - 1].1, x);
    }
  }

  /** Only equivalences change; entries appended on the way have no annotations and no superclasses. */
  predicate EquivalenceOnly(t: Table, t': Table)
  {
    |t| <= |t'| &&
    (forall k :: 0 <= k < |t| ==> t'[k].annotations == t[k].annotations && t'[k].subClassOf == t[k].subClassOf) &&
    (forall k :: |t| <= k < |t'| ==> t'[k].annotations == [] && t'[k].subClassOf == [])
  }

  lemma EquivalenceOnlyTrans(t1: Table, t2: Table, t3: Table)
    requires EquivalenceOnly(t1, t2) && EquivalenceOnly(t2, t3)
    ensures EquivalenceOnly(t1, t3)
  {
  }

  lemma WithEquivalentOnly(t: Table, name: string, other: string)
    ensures EquivalenceOnly(t, WithEquivalent(t, name, other))
  {
  }

  lemma {:induction false} WithEquivalentsOnly(t: Table, ps: seq<(string, string)>)
    ensures EquivalenceOnly(t, WithEquivalents(t, ps))
  {
    if ps != [] {
      var init := ps[..|ps| - 1];
      var t' := WithEquivalents(t, init);
      WithEquivalentsOnly(t, init);
      WithEquivalentOnly(t', ps[|ps| - 1].0, ps[|ps| - 1].1);
      EquivalenceOnlyTrans(t, t', WithEquivalents(t, ps));
    }
  }

  /**
   * Merging a group of at least two distinct names: a member not yet in the table is
   * synthesised with no annotations and no superclasses, and no member whose entry did not
   * list itself comes to list itself.
   */
  lemma EquivalenceGroupMembers(t: Table, g: seq<string>, i: nat)
    requires |g| >= 2 && NoDuplicates(g) && i < |g|
    ensures var r := WithEquivalents(t, MemberLinks(g, |g|));
      Named(r, g[i]) &&
      SelfFree(r, g[i]) == SelfFree(t, g[i]) &&
      (!Named(t, g[i]) ==> r[IndexOfName(r, g[i])].annotations == [] && r[IndexOfName(r, g[i])].subClassOf == [])
  {
    var ps := MemberLinks(g, |g|);
    var r := WithEquivalents(t, ps);
    var j := if i == 0 then 1 else 0;
    MemberLinksAt(g, |g|, i, j);
    WithEquivalentsRecorded(t, ps, MemberSlot(g, i, j));
    WithEquivalentsExtend(t, ps);
    WithEquivalentsOnly(t, ps);
    if SelfFree(t, g[i]) {
      MemberLinksWellFormed(g, |g|);
      WithEquivalentsSelfFree(t, ps, g[i]);
    } else {
      IndexStable(t, r, g[i]);
      var k := IndexOfName(t, g[i]);
      PrefixMember(t[k].equivalentTo, r[k].equivalentTo, g[i]);
    }
  }

  /** Only superclasses change; entries appended on the way have no annotations and no equivalent classes. */
  predicate SuperclassOnly(t: Table, t': Table)
  {
    |t| <= |t'| &&
    (forall k :: 0 <= k < |t| ==> t'[k].annotations == t[k].annotations && t'[k].equivalentTo == t[k].equivalentTo) &&
    (forall k :: |t| <= k < |t'| ==> t'[k].annotations == [] && t'[k].equivalentTo == [])
  }

  lemma SuperclassOnlyTrans(t1: Table, t2: Table, t3: Table)
    requires SuperclassOnly(t1, t2) && SuperclassOnly(t2, t3)
    ensures SuperclassOnly(t1, t3)
  {
  }

  lemma WithSuperclassOnly(t: Table, sub: string, sup: string)
    ensures SuperclassOnly(t, WithSuperclass(t, sub, sup))
  {
  }

  /** Subclass merges leave annotations and equivalent classes as they were, and append only minimal entries. */
  lemma {:induction false} WithSuperclassesOnly(t: Table, ps: seq<(string, string)>)
    ensures SuperclassOnly(t, WithSuperclasses(t, ps))
  {
    if ps != [] {
      var init := ps[..|ps| - 1];
      var t' := WithSuperclasses(t, init);
      WithSuperclassesOnly(t, init);
      WithSuperclassOnly(t', ps[|ps| - 1].0, ps[|ps| - 1].1);
      SuperclassOnlyTrans(t, t', WithSuperclasses(t, ps));
    }
  }

  // ---------------------------------------------------------------------------
  // Where listed names come from

  /** The two name lists of an entry. */
  datatype Link = Superclass | Equivalent

  function Listed(e: ClassEntity, f: Link): seq<string>
  {
    if f == Superclass then e.subClassOf else e.equivalentTo
  }

  /**
   * Every name an entry of `t'` lists under `f` was listed there by the entry at the same place
   * in `t`, or is the second name of one of the pairs `ps` whose first name is the entry's name.
   */
  predicate ListedFrom(t: Table, t': Table, f: Link, ps: seq<(string, string)>)
  {
    |t| <= |t'| &&
    forall k, y :: 0 <= k < |t'| && y in Listed(t'[k], f) ==>
      (k < |t| && y in Listed(t[k], f)) || (t'[k].name, y) in ps
  }

  lemma ListedFromTrans(t1: Table, t2: Table, t3: Table, f: Link, a: seq<(string, string)>, b: seq<(string, string)>)
    requires ListedFrom(t1, t2, f, a) && ListedFrom(t2, t3, f, b) && Extends(t2, t3)
    ensures ListedFrom(t1, t3, f, a + b)
  {
    forall k, y | 0 <= k < |t3| && y in Listed(t3[k], f)
      ensures (k < |t1| && y in Listed(t1[k], f)) || (t3[k].name, y) in a + b
    {
      if (t3[k].name, y) !in b {
        assert k < |t2| && y in Listed(t2[k], f);
        assert t3[k].name == t2[k].name;
      }
    }
  }

  /** A stage that changes only the superclasses lists no new equivalent class, and the other way round. */
  lemma OnlyListsNothingNew(t: Table, t': Table)
    ensures SuperclassOnly(t, t') ==> ListedFrom(t, t', Equivalent, [])
    ensures EquivalenceOnly(t, t') ==> ListedFrom(t, t', Superclass, [])
  {
  }

  lemma WithSuperclassFrom(t: Table, sub: string, sup: string)
    ensures ListedFrom(t, WithSuperclass(t, sub, sup), Superclass, [(sub, sup)])
  {
    WithSuperclassShape(t, sub, sup);
  }

  lemma WithEquivalentFrom(t: Table, name: string, other: string)
    ensures ListedFrom(t, WithEquivalent(t, name, other), Equivalent, [(name, other)])
  {
    WithEquivalentShape(t, name, other);
  }

  /** After subclass merges, every superclass a class lists was listed before or comes from a merged pair of that class. */
  lemma {:induction false} WithSuperclassesFrom(t: Table, ps: seq<(string, string)>)
    ensures ListedFrom(t, WithSuperclasses(t, ps), Superclass, ps)
  {
    if ps == [] {
      assert ListedFrom(t, t, Superclass, ps);
    } else {
      var init := ps[..|ps| - 1];
      var last := ps[|ps| - 1];
      var t' := WithSuperclasses(t, init);
      WithSuperclassesFrom(t, init);
      WithSuperclassFrom(t', last.0, last.1);
      WithSuperclassExtends(t', last.0, last.1);
      ListedFromTrans(t, t', WithSuperclasses(t, ps), Superclass, init, [last]);
      assert init + [last] == ps;
    }
  }

  /** After equivalence merges, every equivalent class an entry lists was listed before or comes from a merged link of that entry. */
  lemma {:induction false} WithEquivalentsFrom(t: Table, ps: seq<(string, string)>)
    ensures ListedFrom(t, WithEquivalents(t, ps), Equivalent, ps)
  {
    if ps == [] {
      assert ListedFrom(t, t, Equivalent, ps);
    } else {
      var init := ps[..|ps| - 1];
      var last := ps[|ps| - 1];
      var t' := WithEquivalents(t, init);
      WithEquivalentsFrom(t, init);
      WithEquivalentFrom(t', last.0, last.1);
      WithEquivalentExtends(t', last.0, last.1);
      ListedFromTrans(t, t', WithEquivalents(t, ps), Equivalent, init, [last]);
      assert init + [last] == ps;
    }
  }

  /** Every link of member `i` joins it to another position of the group. */
  lemma {:induction false} PartnerLinksSound(g: seq<string>, i: nat, m: nat, p: (string, string))
    requires i < |g| && m <= |g| && p in PartnerLinks(g, i, m)
    ensures exists j :: 0 <= j < m && j != i && p == (g[i], g[j])
  {
    var before := PartnerLinks(g, i, m - 1);
    if p in before {
      PartnerLinksSound(g, i, m - 1, p);
    } else {
      assert p == (g[i], g[m - 1]);
    }
  }

  lemma {:induction false} MemberLinksSound(g: seq<string>, n: nat, p: (string, string))
    requires n <= |g| && p in MemberLinks(g, n)
    ensures exists i, j :: 0 <= i < n && 0 <= j < |g| && i != j && p == (g[i], g[j])
  {
    var before := MemberLinks(g, n - 1);
    var own := PartnerLinks(g, n - 1, |g|);
    assert MemberLinks(g, n) == before + own;
    if p in before {
      MemberLinksSound(g, n - 1, p);
    } else {
      PartnerLinksSound(g, n - 1, |g|, p);
      var j :| 0 <= j < |g| && j != n - 1 && p == (g[n - 1], g[j]);
      assert 0 <= n - 1 < n && p == (g[n - 1], g[j]);
    }
  }

  /** Every link the groups yield joins two different positions of one group. */
  lemma {:induction false} GroupLinksSound(gs: seq<seq<string>>, p: (string, string))
    requires p in GroupLinks(gs)
    ensures exists gi, i, j :: 0 <= gi < |gs| && 0 <= i < |gs[gi]| && 0 <= j < |gs[gi]| && i != j &&
                               p == (gs[gi][i], gs[gi][j])
  {
    var n := |gs| - 1;
    var init := gs[..n];
    var g := gs[n];
    assert GroupLinks(gs) == GroupLinks(init) + MemberLinks(g, |g|);
    if p in GroupLinks(init) {
      GroupLinksSound(init, p);
      var gi, i, j :| 0 <= gi < |init| && 0 <= i < |init[gi]| && 0 <= j < |init[gi]| && i != j &&
                      p == (init[gi][i], init[gi][j]);
      assert init[gi] == gs[gi];
    } else {
      MemberLinksSound(g, |g|, p);
    }
  }

  /**
   * The other half of the class table, for superclasses: every superclass an entry lists was
   * written inside its declaration (the declared entry at the same place) or is the superclass
   * of an owl:SubClassOf axiom or reified statement about that entry's name.
   */
  lemma ClassTableSuperclassesSound(doc: Document)
    ensures ListedFrom(DeclaredClasses(doc.classElems), ClassTable(doc), Superclass,
                       AxiomPairs(doc.subClassAxioms) + StatementPairs(doc.rdfElems))
  {
    var declared := DeclaredClasses(doc.classElems);
    var axiomPairs := AxiomPairs(doc.subClassAxioms);
    var statementPairs := StatementPairs(doc.rdfElems);
    var withAxioms := WithSuperclasses(declared, axiomPairs);
    var withStatements := WithSuperclasses(withAxioms, statementPairs);
    var links := GroupLinks(EquivalenceGroups(doc.equivalenceAxioms));
    var r := ClassTable(doc);
    assert r == WithEquivalents(withStatements, links);
    WithSuperclassesExtend(withAxioms, statementPairs);
    WithEquivalentsExtend(withStatements, links);
    WithSuperclassesFrom(declared, axiomPairs);
    WithSuperclassesFrom(withAxioms, statementPairs);
    ListedFromTrans(declared, withAxioms, withStatements, Superclass, axiomPairs, statementPairs);
    WithEquivalentsOnly(withStatements, links);
    OnlyListsNothingNew(withStatements, r);
    ListedFromTrans(declared, withStatements, r, Superclass, axiomPairs + statementPairs, []);
    assert axiomPairs + statementPairs + [] == axiomPairs + statementPairs;
  }

  /**
   * The other half of the class table, for equivalent classes: every equivalent class an entry
   * lists was written inside its declaration or is a partner of that entry's name in an
   * owl:EquivalentClasses group (a link of its name, see GroupLinksSound).
   */
  lemma ClassTableEquivalentsSound(doc: Document)
    ensures ListedFrom(DeclaredClasses(doc.classElems), ClassTable(doc), Equivalent,
                       GroupLinks(EquivalenceGroups(doc.equivalenceAxioms)))
  {
    var declared := DeclaredClasses(doc.classElems);
    var axiomPairs := AxiomPairs(doc.subClassAxioms);
    var statementPairs := StatementPairs(doc.rdfElems);
    var withAxioms := WithSuperclasses(declared, axiomPairs);
    var withStatements := WithSuperclasses(withAxioms, statementPairs);
    var links := GroupLinks(EquivalenceGroups(doc.equivalenceAxioms));
    var r := ClassTable(doc);
    assert r == WithEquivalents(withStatements, links);
    WithEquivalentsExtend(withStatements, links);
    WithSuperclassesOnly(declared, axiomPairs);
    WithSuperclassesOnly(withAxioms, statementPairs);
    SuperclassOnlyTrans(declared, withAxioms, withStatements);
    OnlyListsNothingNew(declared, withStatements);
    WithEquivalentsFrom(withStatements, links);
    ListedFromTrans(declared, withStatements, r, Equivalent, [], links);
    assert [] + links == links;
  }

  /**
   * The first class element to declare a name keeps, in the final table, the entry it gave:
   * its annotations exactly, and its inline superclass and equivalent-class names as the
   * start of the final lists.
   */
  lemma DeclaredClassKept(doc: Document, i: nat)
    requires FirstDeclaration(doc.classElems, i)
    ensures var c := doc.classElems[i];
      var t := ClassTable(doc);
      var k := IndexOfName(t, DeclaredName(c).value);
      k < |t| && t[k].annotations == AnnotationsOf(c.annotated) &&
      InlineNames(c.subClassOf) <= t[k].subClassOf && InlineNames(c.equivalentClass) <= t[k].equivalentTo
  {
    var declared := DeclaredClasses(doc.classElems);
    DeclaredEntry(doc.classElems, i);
    ClassTableShape(doc);
    IndexStable(declared, ClassTable(doc), DeclaredName(doc.classElems[i]).value);
  }

  /**
   * The whole table extends the declared classes (no declared entry is lost, renamed, moved or
   * stripped), and every owl:EquivalentClasses group links each member to every other member.
   */
  lemma ClassTableShape(doc: Document)
    ensures Extends(DeclaredClasses(doc.classElems), ClassTable(doc))
    ensures var gs := EquivalenceGroups(doc.equivalenceAxioms);
      forall gi, i, j :: 0 <= gi < |gs| && 0 <= i < |gs[gi]| && 0 <= j < |gs[gi]| && i != j ==>
        HasEquivalent(ClassTable(doc), gs[gi][i], gs[gi][j])
    ensures var ps := AxiomPairs(doc.subClassAxioms) + StatementPairs(doc.rdfElems);
      forall i :: 0 <= i < |ps| ==> HasSuperclass(ClassTable(doc), ps[i].0, ps[i].1)
  {
    var declared := DeclaredClasses(doc.classElems);
    var axiomPairs := AxiomPairs(doc.subClassAxioms);
    var statementPairs := StatementPairs(doc.rdfElems);
    var withAxioms := WithSuperclasses(declared, axiomPairs);
    var withStatements := WithSuperclasses(withAxioms, statementPairs);
    var gs := EquivalenceGroups(doc.equivalenceAxioms);
    var r := ClassTable(doc);
    var links := GroupLinks(gs);
    assert r == WithEquivalents(withStatements, links);
    WithSuperclassesExtend(declared, axiomPairs);
    WithSuperclassesExtend(withAxioms, statementPairs);
    WithEquivalentsExtend(withStatements, links);
    ExtendsTrans(declared, withAxioms, withStatements);
    ExtendsTrans(declared, withStatements, r);
    forall gi, i, j | 0 <= gi < |gs| && 0 <= i < |gs[gi]| && 0 <= j < |gs[gi]| && i != j
      ensures HasEquivalent(r, gs[gi][i], gs[gi][j])
    {
      GroupLinksAt(gs, gi, i, j);
      WithEquivalentsRecorded(withStatements, links, GroupSlot(gs, gi, i, j));
    }
    var ps := axiomPairs + statementPairs;
    forall i | 0 <= i < |ps|
      ensures HasSuperclass(r, ps[i].0, ps[i].1)
    {
      if i < |axiomPairs| {
        WithSuperclassesRecorded(declared, axiomPairs, i);
        ExtendsTrans(withAxioms, withStatements, r);
        RecordsStable(withAxioms, r, ps[i].0, ps[i].1);
      } else {
        WithSuperclassesRecorded(withAxioms, statementPairs, i - |axiomPairs|);
        RecordsStable(withStatements, r, ps[i].0, ps[i].1);
      }
    }
  }
}
