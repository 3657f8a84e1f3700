/**
 * Name normalisation: the short display name of a URI (`get_local_name`) and the
 * collapse of an absent, scalar or list value into an optional string (`normalize_value`).
 */
module Names {
  import opened Common

  /** The placeholder for a name that could not be resolved; later stages drop edges that carry it. */
  const Unknown: string := "Unknown"

  /** A value as a caller may hand it over: absent (None), a text, or a list of values. */
  datatype Value = Absent | Text(s: string) | Items(elems: seq<Value>)

  /** Python truthiness: None, "" and [] are false. */
  predicate IsTruthy(v: Value)
  {
    match v
    case Absent => false
    case Text(s) => s != ""
    case Items(xs) => xs != []
  }

  /** The value of an optional XML attribute. */
  function Attr(o: Option<string>): (v: Value)
    ensures IsTruthy(v) <==> Truthy(o)
  {
    if o.Some? then Text(o.value) else Absent
  }

  /** Index of the first truthy element of `xs`, or `|xs|` when there is none. */
  function FirstTruthy(xs: seq<Value>): (k: nat)
    ensures k <= |xs|
    ensures k < |xs| ==> IsTruthy(xs[k])
    ensures forall j :: 0 <= j < k ==> !IsTruthy(xs[j])
  {
    if xs == [] then 0
    else if IsTruthy(xs[0]) then 0
    else 1 + FirstTruthy(xs[1..])
  }

  /** Python's repr of a value inside a list display (strings quoted, without escaping). */
  function Repr(v: Value): string
    decreases v, if v.Items? then |v.elems| + 1 else 0
  {
    match v
    case Absent => "None"
    case Text(s) => "'" + s + "'"
    case Items(xs) => "[" + JoinReprs(v, 0) + "]"
  }

  /** The reprs of `v.elems[i..]`, separated by ", ". */
  function JoinReprs(v: Value, i: nat): string
    requires v.Items? && i <= |v.elems|
    decreases v, |v.elems| - i
  {
    if i == |v.elems| then ""
    else if i + 1 == |v.elems| then Repr(v.elems[i])
    else Repr(v.elems[i]) + ", " + JoinReprs(v, i + 1)
  }

  /** Python's str(): a text is itself, None is "None", a list is its repr. */
  function Str(v: Value): string
  {
    match v
    case Text(s) => s
    case _ => Repr(v)
  }

  /** `s.replace('{', '').replace('}', '')` */
  function RemoveBraces(s: string): (r: string)
    ensures '{' !in r && '}' !in r
    ensures forall c :: c in r <==> c in s && c != '{' && c != '}'
  {
    if s == [] then []
    else (if s[0] == '{' || s[0] == '}' then [] else [s[0]]) + RemoveBraces(s[1..])
  }

  lemma {:induction false} RemoveBracesIdentity(s: string)
    requires '{' !in s && '}' !in s
    ensures RemoveBraces(s) == s
  {
    if s != [] {
      RemoveBracesIdentity(s[1..]);
    }
  }

  /** Index of the first character of `s` that occurs in `cs`, or `|s|`. */
  function IndexOfAny(s: string, cs: string): (k: nat)
    ensures k <= |s|
    ensures k < |s| ==> s[k] in cs
    ensures forall j :: 0 <= j < k ==> s[j] !in cs
  {
    if s == [] then 0
    else if s[0] in cs then 0
    else 1 + IndexOfAny(s[1..], cs)
  }

  /** Index of the last character of `s` that occurs in `cs`, or -1. */
  function LastIndexOfAny(s: string, cs: string): (k: int)
    ensures -1 <= k < |s|
    ensures k >= 0 ==> s[k] in cs
    ensures forall j :: k < j < |s| ==> s[j] !in cs
  {
    if s == [] then -1
    else if s[|s| - 1] in cs then |s| - 1
    else LastIndexOfAny(s[..|s| - 1], cs)
  }

  predicate IsAsciiLetter(c: char)
  {
    'a' <= c <= 'z' || 'A' <= c <= 'Z'
  }

  /** Characters allowed in a URI scheme (section 3.1 of RFC 3986). */
  predicate IsSchemeChar(c: char)
  {
    IsAsciiLetter(c) || '0' <= c <= '9' || c == '+' || c == '-' || c == '.'
  }

  /**
   * Length of the `scheme:` prefix of `u`, or 0 when `u` has none: the text before the
   * first ':' is a scheme when it is non-empty, starts with a letter and holds only
   * scheme characters.
   */
  function SchemeLength(u: string): (n: nat)
    ensures n <= |u|
    ensures forall j :: 0 <= j < n ==> u[j] != '/' && u[j] != '#' && u[j] != '?'
  {
    var i := IndexOfAny(u, ":");
    if 0 < i < |u| && IsAsciiLetter(u[0]) && (forall j :: 0 <= j < i ==> IsSchemeChar(u[j])) then i + 1
    else 0
  }

  /** End of the `//authority` part that starts at `start`, or `start` when there is none. */
  function AuthorityEnd(u: string, start: nat): (m: nat)
    requires start <= |u|
    ensures start <= m <= |u|
    ensures forall j :: start <= j < m ==> u[j] != '#' && u[j] != '?'
    ensures start < m < |u| ==> u[m] in "/?#"
  {
    if start + 2 <= |u| && u[start] == '/' && u[start + 1] == '/' then
      var n := IndexOfAny(u[start + 2..], "/?#");
      assert forall j :: start + 2 <= j < start + 2 + n ==> u[j] == u[start + 2..][j - start - 2];
      var m := start + 2 + n;
      assert m < |u| ==> u[m] == u[start + 2..][n];
      m
    else start
  }

  /** Where the path of `u` begins: after the scheme and the authority. */
  function PathStart(u: string): (m: nat)
    ensures m <= |u|
    ensures forall j :: 0 <= j < m ==> u[j] != '#' && u[j] != '?'
  {
    AuthorityEnd(u, SchemeLength(u))
  }

  /** The components of a URI that the converter uses (sections 3.3 to 3.5 of RFC 3986). */
  datatype UriParts = UriParts(path: string, query: string, fragment: string)

  /** urlparse's split: the fragment follows the first '#', the query the first '?', the path precedes both. */
  function SplitUri(u: string): UriParts
  {
    var rest := u[PathStart(u)..];
    var f := IndexOfAny(rest, "#");
    var beforeFragment := rest[..f];
    var q := IndexOfAny(beforeFragment, "?");
    UriParts(beforeFragment[..q],
             if q < |beforeFragment| then beforeFragment[q + 1..] else "",
             if f < |rest| then rest[f + 1..] else "")
  }

  /** `os.path.basename`: the text after the last '/'. */
  function Basename(path: string): string
  {
    path[LastIndexOfAny(path, "/") + 1..]
  }

  /** `re.search(r'[#/]([^#/]+)$', u)`: the non-empty segment after the last '#' or '/', else `u` itself. */
  function TrailingSegment(u: string): string
  {
    var k := LastIndexOfAny(u, "#/");
    if 0 <= k < |u| - 1 then u[k + 1..] else u
  }

  /** get_local_name applied to a text. */
  function LocalNameOfText(s: string): string
  {
    var u := RemoveBraces(s);
    var parts := SplitUri(u);
    if parts.fragment != "" then parts.fragment
    else if parts.path != "" then Basename(parts.path)
    else TrailingSegment(u)
  }

  /**
   * get_local_name: "Unknown" for an absent value; a list stands for its first truthy
   * element (or for its own str() when it has none); the text is stripped of braces and
   * its fragment, else the last segment of its path, is returned.
   */
  function LocalName(v: Value): (r: string)
    ensures v.Absent? ==> r == Unknown
    ensures v.Text? ==> r == LocalNameOfText(v.s)
  {
    match v
    case Absent => Unknown
    case Text(s) => LocalNameOfText(s)
    case Items(xs) =>
      var k := FirstTruthy(xs);
      LocalNameOfText(if k < |xs| then Str(xs[k]) else Str(v))
  }

  /** get_local_name of an optional XML attribute. */
  function LocalNameOf(o: Option<string>): (r: string)
    ensures o.None? ==> r == Unknown
  {
    LocalName(Attr(o))
  }

  /** The first '#' of `u` lies in the part after the path start. */
  lemma FragmentIndexInRest(u: string)
    ensures IndexOfAny(u[PathStart(u)..], "#") == IndexOfAny(u, "#") - PathStart(u)
  {
    var m := PathStart(u);
    var rest := u[m..];
    var h := IndexOfAny(u, "#");
    assert forall j :: 0 <= j < |rest| ==> rest[j] == u[m + j];
  }

  /** A URI whose text after its first '#' is non-empty has that text as its local name. */
  lemma LocalNameOfFragment(a: string, f: string)
    requires '#' !in a && f != ""
    requires '{' !in a + "#" + f && '}' !in a + "#" + f
    ensures LocalName(Text(a + "#" + f)) == f
  {
    var u := a + "#" + f;
    RemoveBracesIdentity(u);
    assert u[|a|] == '#';
    assert forall j :: 0 <= j < |a| ==> u[j] == a[j];
    assert IndexOfAny(u, "#") == |a|;
    FragmentIndexInRest(u);
    var m := PathStart(u);
    var rest := u[m..];
    assert rest[|a| - m + 1..] == f;
  }

  /** Without '#' and '?' the path is everything after the authority. */
  lemma SplitWithoutFragment(u: string)
    requires '#' !in u && '?' !in u
    ensures SplitUri(u).fragment == "" && SplitUri(u).path == u[PathStart(u)..]
  {
    var rest := u[PathStart(u)..];
    assert forall j :: 0 <= j < |rest| ==> rest[j] in u;
  }

  /** The last separator of `p + "/" + seg`, when '/' is a separator and `seg` holds none, is at `|p|`. */
  lemma LastSeparator(p: string, seg: string, cs: string)
    requires '/' in cs
    requires forall c :: c in seg ==> c !in cs
    ensures LastIndexOfAny(p + "/" + seg, cs) == |p|
  {
    var u := p + "/" + seg;
    var k := LastIndexOfAny(u, cs);
    assert u[|p|] == '/';
    assert forall j :: |p| < j < |u| ==> u[j] == seg[j - |p| - 1];
    assert !(k > |p|);
    assert !(k < |p|);
  }

  /** `basename` of `q + "/" + seg` is `seg` when `seg` holds no '/'. */
  lemma BasenameOfSegment(q: string, seg: string)
    requires '/' !in seg
    ensures Basename(q + "/" + seg) == seg
  {
    LastSeparator(q, seg, "/");
    assert (q + "/" + seg)[|q| + 1..] == seg;
  }

  /** When the final '/' lies inside the leading "//", the authority runs to the end and the path is empty. */
  lemma AuthorityToEnd(p: string, seg: string)
    requires '/' !in seg && '#' !in seg && '?' !in seg
    requires PathStart(p + "/" + seg) > |p|
    ensures PathStart(p + "/" + seg) == |p + "/" + seg|
  {
    var u := p + "/" + seg;
    var a := SchemeLength(u);
    var m := PathStart(u);
    assert u[|p|] == '/';
    assert a <= |p|;
    assert forall j :: |p| < j < |u| ==> u[j] == seg[j - |p| - 1];
  }

  /** A text without braces, fragment or query: its local name comes from its path, else from the regex fallback. */
  lemma LocalNameOfPlainText(u: string)
    requires '#' !in u && '?' !in u && '{' !in u && '}' !in u
    ensures LocalNameOfText(u) == if PathStart(u) < |u| then Basename(u[PathStart(u)..]) else TrailingSegment(u)
  {
    RemoveBracesIdentity(u);
    SplitWithoutFragment(u);
  }

  /** The basename of any suffix of `p + "/" + seg` that keeps the last '/' is `seg`. */
  lemma BasenameOfSuffix(p: string, seg: string, m: nat)
    requires '/' !in seg && m <= |p|
    ensures Basename((p + "/" + seg)[m..]) == seg
  {
    assert (p + "/" + seg)[m..] == p[m..] + "/" + seg;
    BasenameOfSegment(p[m..], seg);
  }

  /**
   * A URI without fragment, query or braces whose text ends in `/seg` with a non-empty
   * `seg` free of ';' (which urlparse would split off as parameters) has `seg` as its local name: `http://ex.org/onto/Patient` gives `Patient`.
   */
  lemma LocalNameOfLastSegment(p: string, seg: string)
    requires seg != "" && '/' !in seg && ';' !in seg
    requires '#' !in p + "/" + seg && '?' !in p + "/" + seg
    requires '{' !in p + "/" + seg && '}' !in p + "/" + seg
    ensures LocalName(Text(p + "/" + seg)) == seg
  {
    var u := p + "/" + seg;
    assert forall c :: c in seg ==> c in u;
    LocalNameOfPlainText(u);
    var m := PathStart(u);
    if m <= |p| {
      BasenameOfSuffix(p, seg, m);
    } else {
      AuthorityToEnd(p, seg);
      LastSeparator(p, seg, "#/");
      assert u[|p| + 1..] == seg;
    }
  }

  /** A list stands for its first truthy element. */
  lemma LocalNameOfFirstTruthy(xs: seq<Value>, s: string)
    requires FirstTruthy(xs) < |xs| && xs[FirstTruthy(xs)] == Text(s)
    ensures LocalName(Items(xs)) == LocalName(Text(s))
  {
  }

  /**
   * normalize_value: None stays None, a list gives the normalisation of its first truthy
   * element (None when it has none), anything else its string form.
   */
  function NormalizeValue(v: Value): (r: Option<string>)
    ensures v.Absent? ==> r.None?
    ensures v.Text? ==> r == Some(v.s)
    ensures v.Items? && FirstTruthy(v.elems) == |v.elems| ==> r.None?
    ensures v.Items? && FirstTruthy(v.elems) < |v.elems| ==> r == NormalizeValue(v.elems[FirstTruthy(v.elems)])
  {
    match v
    case Absent => None
    case Text(s) => Some(s)
    case Items(xs) =>
      var k := FirstTruthy(xs);
      if k < |xs| then NormalizeValue(xs[k]) else None
  }

  /** Normalising is idempotent: a normalised value normalises to itself. */
  lemma NormalizeIdempotent(v: Value)
    ensures NormalizeValue(Attr(NormalizeValue(v))) == NormalizeValue(v)
  {
  }

  /** `s` occurs as a text somewhere inside `v`. */
  predicate OccursIn(s: string, v: Value)
    decreases v
  {
    match v
    case Absent => false
    case Text(t) => t == s
    case Items(xs) => exists i :: 0 <= i < |xs| && OccursIn(s, xs[i])
  }

  /** Normalising never invents text: a result is a text found inside the input, and it is non-empty for a list. */
  lemma {:induction false} NormalizeFindsText(v: Value)
    requires NormalizeValue(v).Some?
    ensures OccursIn(NormalizeValue(v).value, v)
    ensures v.Items? ==> NormalizeValue(v).value != ""
    decreases v
  {
    match v
    case Absent =>
    case Text(s) =>
    case Items(xs) =>
      var k := FirstTruthy(xs);
      NormalizeFindsText(xs[k]);
      assert xs[k].Text? ==> xs[k].s != "";
  }
}
