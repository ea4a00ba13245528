/** Route patterns: splitting a path, parsing pattern segments and their canonical text
    (`runtime/router.go`, with `normalizePath` of `runtime/request.go`). */
module RoutePatterns {
  import opened Text

  /** A parsed pattern segment: literal text, `{name}` or `{name+}`. */
  datatype Segment = Static(value: string) | Param(value: string) | Proxy(value: string) {

    /** The segment's canonical spelling. */
    function Canonical(): string {
      match this
      case Static(v) => v
      case Param(v) => "{" + v + "}"
      case Proxy(v) => "{" + v + "+}"
    }
  }

  /** `normalizePath`: trimmed, query text cut off, leading slash ensured. */
  function NormalizePath(path: string): (r: string)
    ensures r != "" && r[0] == '/'
    ensures Avoids(r, '?')
  {
    var p := Trim(path);
    if p == "" then "/" else
      var q := if Avoids(p, '?') then p else p[..IndexOf(p, '?')];
      if q != "" && q[0] == '/' then q else "/" + q
  }

  /** The path text is the part before the query, given a leading slash if it has none. */
  lemma NormalizePathKeeps(path: string, kept: string, query: string)
    requires Avoids(kept, '?')
    requires Trim(path) == kept || Trim(path) == kept + "?" + query
    ensures NormalizePath(path) == if kept != "" && kept[0] == '/' then kept else "/" + kept
  {
    var p := Trim(path);
    hide Trim;
    if p != kept {
      assert p[..|kept|] == kept && p[|kept|] == '?';
      IndexOfUnique(p, '?', |kept|);
    }
  }

  /** Normalizing a second time changes the path exactly when white space was left before the query. */
  lemma NormalizePathIdempotent(path: string)
    ensures NormalizePath(NormalizePath(path)) == NormalizePath(path) <==>
            !IsSpace(NormalizePath(path)[|NormalizePath(path)| - 1])
  {
    var p := NormalizePath(path);
    hide NormalizePath;
    TrimSlashed(p);
    NormalizePathKeeps(p, Trim(p), "") by { TrimAvoids(p, '?'); }
  }

  /** Trimming changes a path that starts with a slash exactly when it ends in white space. */
  lemma TrimSlashed(p: string)
    requires p != "" && p[0] == '/'
    ensures Trim(p) != "" && Trim(p)[0] == '/'
    ensures Trim(p) == p <==> !IsSpace(p[|p| - 1])
  {
    assert !IsSpace(p[0]);
    assert TrimLeft(p) == p;
  }

  /** `splitPath`: the parts between the slashes, not counting a leading one. */
  function SplitPath(path: string): (parts: seq<string>)
    ensures AllAvoid(parts, '/') && parts != [""]
    ensures "/" + Join(parts, "/") == if Trim(path) != "" && Trim(path)[0] == '/' then Trim(path) else "/" + Trim(path)
  {
    var p := Trim(path);
    var q := if p != "" && p[0] == '/' then p[1..] else p;
    if q == "" then [] else
      SplitAllAvoid(q, '/');
      JoinSplit(q, '/');
      Split(q, '/')
  }

  lemma SplitPathAvoids(path: string, c: char)
    requires Avoids(path, c)
    ensures AllAvoid(SplitPath(path), c)
  {
    TrimAvoids(path, c);
    var p := Trim(path);
    var q := if p != "" && p[0] == '/' then p[1..] else p;
    SplitAvoids(q, '/', c);
  }

  /** The older spelling `:name` stands for `{name}`. */
  function ExpandColon(segment: string): string {
    if |segment| > 1 && segment[0] == ':' then "{" + segment[1..] + "}" else segment
  }

  function ParseBraced(inner: string): Option<Segment>
    requires inner != ""
  {
    if inner[|inner| - 1] == '+' then
      var name := Trim(inner[..|inner| - 1]);
      if name == "" then None else Some(Proxy(name))
    else
      var name := Trim(inner);
      if name == "" then None else Some(Param(name))
  }

  /** `parseRouteSegment`; the canonical text it also returns is `Canonical()` of the result. */
  function ParseSegment(raw: string): Option<Segment> {
    var s := ExpandColon(Trim(raw));
    if s == "" then None
    else if |s| > 2 && s[0] == '{' && s[|s| - 1] == '}' then ParseBraced(s[1..|s| - 1])
    else if !Avoids(s, '{') || !Avoids(s, '}') then None
    else Some(Static(s))
  }

  /** Braces, or the older colon, around some text. */
  predicate Wraps(s: string, inner: string) {
    inner != "" && (s == "{" + inner + "}" || s == ":" + inner)
  }

  /** What a segment's trimmed text has to be for each result: plain text without braces for a literal;
      wrapped text for a name, which is a proxy's if a "+" follows it directly before the end.  Everything
      else is refused. */
  ghost predicate Reads(s: string, result: Option<Segment>) {
    match result
    case Some(Static(v)) => s == v != "" && Avoids(v, '{') && Avoids(v, '}') && (|v| > 1 ==> v[0] != ':')
    case Some(Param(v)) => v != "" && exists inner :: Wraps(s, inner) && inner[|inner| - 1] != '+' && v == Trim(inner)
    case Some(Proxy(v)) => v != "" && exists name :: Wraps(s, name + "+") && v == Trim(name)
    case None =>
      && (s != "" && Avoids(s, '{') && Avoids(s, '}') ==> |s| > 1 && s[0] == ':')
      && (forall inner | Wraps(s, inner) && inner[|inner| - 1] != '+' :: Trim(inner) == "")
      && (forall name | Wraps(s, name + "+") :: Trim(name) == "")
  }

  /** Wrapped text is determined by what wraps it. */
  lemma WrapsInner(s: string, inner: string)
    requires Wraps(s, inner)
    ensures var e := ExpandColon(s); |e| > 2 && e[0] == '{' && e[|e| - 1] == '}' && e[1..|e| - 1] == inner
  {
    if s == ":" + inner {
      assert s[1..] == inner;
    }
    var e := "{" + inner + "}";
    assert e[1..|e| - 1] == inner;
  }

  lemma UnwrapsInner(s: string)
    requires var e := ExpandColon(s); |e| > 2 && e[0] == '{' && e[|e| - 1] == '}'
    ensures var e := ExpandColon(s); Wraps(s, e[1..|e| - 1])
  {
    var e := ExpandColon(s);
    var inner := e[1..|e| - 1];
    assert e == "{" + inner + "}";
    if e != s {
      assert s == ":" + s[1..];
      assert inner == s[1..];
    }
  }

  /** The parser reads every segment so. */
  lemma SegmentReads(raw: string)
    ensures Reads(Trim(raw), ParseSegment(raw))
  {
    var s := Trim(raw);
    var e := ExpandColon(s);
    hide Trim, Avoids;
    forall inner | Wraps(s, inner) ensures |e| > 2 && e[0] == '{' && e[|e| - 1] == '}' && e[1..|e| - 1] == inner {
      WrapsInner(s, inner);
    }
    if |e| > 2 && e[0] == '{' && e[|e| - 1] == '}' {
      UnwrapsInner(s);
      WrappedReads(s, e[1..|e| - 1]);
      assert !Avoids(e, '{') by { HasBrace(e); }
    } else {
      PlainReads(s);
    }
  }

  lemma HasBrace(e: string)
    requires e != "" && e[0] == '{'
    ensures !Avoids(e, '{')
  {
  }

  lemma WrappedReads(s: string, inner: string)
    requires Wraps(s, inner) && forall other | Wraps(s, other) :: other == inner
    ensures Reads(s, ParseBraced(inner))
  {
    NotLiteral(s, inner);
    WrapsSome(s, inner);
    hide Trim, Wraps, Avoids;
    forall name ensures inner == name + "+" <==> inner[|inner| - 1] == '+' && name == inner[..|inner| - 1] {
      PlusSplit(inner, name);
    }
    if inner[|inner| - 1] == '+' {
      ReadsPlus(s, inner, inner[..|inner| - 1]);
    } else {
      ReadsPlain(s, inner);
    }
  }

  lemma ReadsPlus(s: string, inner: string, name: string)
    requires Wraps(s, inner) && inner == name + "+" && inner[|inner| - 1] == '+' && name == inner[..|inner| - 1]
    requires forall other | Wraps(s, other) :: other == inner
    requires forall n :: inner == n + "+" ==> n == name
    requires Avoids(s, '{') ==> |s| > 1 && s[0] == ':'
    ensures Reads(s, ParseBraced(inner))
  {
    hide Trim, Wraps, Avoids;
  }

  lemma ReadsPlain(s: string, inner: string)
    requires inner != "" && Wraps(s, inner) && inner[|inner| - 1] != '+'
    requires forall other | Wraps(s, other) :: other == inner
    requires forall n :: inner != n + "+"
    requires Avoids(s, '{') ==> |s| > 1 && s[0] == ':'
    ensures Reads(s, ParseBraced(inner))
  {
    hide Trim, Wraps, Avoids;
  }

  lemma WrapsSome(s: string, inner: string)
    requires Wraps(s, inner)
    ensures inner != ""
  {
  }

  lemma PlusSplit(inner: string, name: string)
    requires inner != ""
    ensures inner == name + "+" <==> inner[|inner| - 1] == '+' && name == inner[..|inner| - 1]
  {
    if inner[|inner| - 1] == '+' {
      assert inner == inner[..|inner| - 1] + "+";
      assert (name + "+")[..|name|] == name;
    }
  }

  lemma NotLiteral(s: string, inner: string)
    requires Wraps(s, inner)
    ensures Avoids(s, '{') ==> |s| > 1 && s[0] == ':'
  {
    if s == "{" + inner + "}" {
      HasBrace(s);
    }
  }

  lemma PlainReads(s: string)
    requires var e := ExpandColon(s); !(|e| > 2 && e[0] == '{' && e[|e| - 1] == '}')
    requires forall inner | Wraps(s, inner) :: false
    ensures var e := ExpandColon(s);
            Reads(s, if e == "" || !Avoids(e, '{') || !Avoids(e, '}') then None else Some(Static(e)))
  {
    ColonWraps(s);
    hide Trim, Wraps;
  }

  lemma ColonWraps(s: string)
    ensures |s| > 1 && s[0] == ':' ==> Wraps(s, s[1..])
  {
    if |s| > 1 && s[0] == ':' {
      assert s == ":" + s[1..];
    }
  }

  /** What every segment that comes out of the parser satisfies. */
  predicate ValidSegment(seg: Segment) {
    && seg.value != "" && IsTrimmed(seg.value)
    && (seg.Static? ==> Avoids(seg.value, '{') && Avoids(seg.value, '}') && (|seg.value| > 1 ==> seg.value[0] != ':'))
  }

  lemma ParseSegmentValid(raw: string)
    requires ParseSegment(raw).Some?
    ensures ValidSegment(ParseSegment(raw).value)
  {
  }

  lemma ParseSegmentAvoids(raw: string, c: char)
    requires ParseSegment(raw).Some? && Avoids(raw, c) && c != '{' && c != '}'
    ensures Avoids(ParseSegment(raw).value.value, c)
  {
    TrimAvoids(raw, c);
    ExpandAvoids(Trim(raw), c);
    var s := ExpandColon(Trim(raw));
    hide Trim, Avoids, ExpandColon;
    if |s| > 2 && s[0] == '{' && s[|s| - 1] == '}' {
      BracedAvoids(s[1..|s| - 1], c) by { SliceAvoids(s, 1, |s| - 1, c); }
    }
  }

  lemma ExpandAvoids(s: string, c: char)
    requires Avoids(s, c) && c != '{' && c != '}'
    ensures Avoids(ExpandColon(s), c)
  {
  }

  lemma SliceAvoids(s: string, i: nat, j: nat, c: char)
    requires Avoids(s, c) && i <= j <= |s|
    ensures Avoids(s[i..j], c)
  {
  }

  lemma BracedAvoids(inner: string, c: char)
    requires inner != "" && Avoids(inner, c) && ParseBraced(inner).Some?
    ensures Avoids(ParseBraced(inner).value.value, c)
  {
    SliceAvoids(inner, 0, |inner| - 1, c);
    TrimAvoids(inner, c);
    TrimAvoids(inner[..|inner| - 1], c);
    hide Trim, Avoids;
  }

  /** The one kind of segment whose canonical text reads differently: a parameter
      named with a final '+', as registered by `{id+ }`. */
  predicate Reparses(seg: Segment)
    requires ValidSegment(seg)
  {
    !(seg.Param? && seg.value[|seg.value| - 1] == '+')
  }

  /** A canonical segment text parses back to its segment, except that a parameter
      whose name ends in '+' reads as a proxy (or, if the name is just "+", not at all). */
  lemma ReparseSegment(seg: Segment)
    requires ValidSegment(seg)
    ensures ParseSegment(seg.Canonical()) == Some(seg) <==> Reparses(seg)
  {
    match seg
    case Static(v) => ReparseStatic(v);
    case Param(v) => ReparseParam(v);
    case Proxy(v) => ReparseProxy(v);
  }

  lemma ReparseStatic(v: string)
    requires ValidSegment(Static(v))
    ensures ParseSegment(v) == Some(Static(v))
  {
  }

  lemma ReparseParam(v: string)
    requires ValidSegment(Param(v))
    ensures ParseSegment("{" + v + "}") == Some(Param(v)) <==> v[|v| - 1] != '+'
  {
    var text := "{" + v + "}";
    assert IsTrimmed(text);
    assert text[1..|text| - 1] == v;
  }

  lemma ReparseProxy(v: string)
    requires ValidSegment(Proxy(v))
    ensures ParseSegment("{" + v + "+}") == Some(Proxy(v))
  {
    var text := "{" + v + "+}";
    assert IsTrimmed(text);
    var inner := text[1..|text| - 1];
    assert inner == v + "+";
    assert inner[..|inner| - 1] == v;
  }

  predicate PieceParses(raws: seq<string>, i: nat)
    requires i < |raws|
  {
    var seg := ParseSegment(raws[i]);
    seg.Some? && (seg.value.Proxy? ==> i == |raws| - 1)
  }

  /** Every raw segment parses, and a proxy stands only in last position. */
  predicate Parses(raws: seq<string>) {
    forall i | 0 <= i < |raws| :: PieceParses(raws, i)
  }

  function Segments(raws: seq<string>): (segs: seq<Segment>)
    requires Parses(raws)
    ensures |segs| == |raws|
    ensures forall i | 0 <= i < |raws| :: PieceParses(raws, i) && segs[i] == ParseSegment(raws[i]).value
  {
    seq(|raws|, i requires 0 <= i < |raws| => assert PieceParses(raws, i); ParseSegment(raws[i]).value)
  }

  function Canonicals(segs: seq<Segment>): (texts: seq<string>)
    ensures |texts| == |segs|
    ensures forall i | 0 <= i < |segs| :: texts[i] == segs[i].Canonical()
  {
    seq(|segs|, i requires 0 <= i < |segs| => segs[i].Canonical())
  }

  /** `parseRouteSegments`: both result lists, or nothing when a segment is invalid. */
  method ParseSegments(raws: seq<string>) returns (ok: bool, segments: seq<Segment>, canonical: seq<string>)
    ensures ok <==> Parses(raws)
    ensures ok ==> segments == Segments(raws) && canonical == Canonicals(segments)
  {
    hide ParseSegment;
    segments, canonical := [], [];
    for i := 0 to |raws|
      invariant |segments| == i
      invariant forall k | 0 <= k < i :: PieceParses(raws, k)
      invariant forall k | 0 <= k < i :: ParseSegment(raws[k]) == Some(segments[k])
      invariant canonical == Canonicals(segments)
    {
      var seg := ParseSegment(raws[i]);
      if seg.None? || (seg.value.Proxy? && i != |raws| - 1) {
        assert !PieceParses(raws, i);
        return false, [], [];
      }
      CanonicalsSnoc(segments, seg.value);
      segments := segments + [seg.value];
      canonical := canonical + [seg.value.Canonical()];
    }
    SegmentsUnique(raws, segments);
    return true, segments, canonical;
  }

  lemma SegmentsUnique(raws: seq<string>, segs: seq<Segment>)
    requires |segs| == |raws| && Parses(raws)
    requires forall k | 0 <= k < |raws| :: ParseSegment(raws[k]) == Some(segs[k])
    ensures segs == Segments(raws)
  {
  }

  lemma CanonicalsSnoc(segs: seq<Segment>, seg: Segment)
    ensures Canonicals(segs + [seg]) == Canonicals(segs) + [seg.Canonical()]
  {
  }

  /** The segments a pattern text denotes, if it is a legal pattern. */
  function ParsePattern(pattern: string): Option<seq<Segment>> {
    var raws := SplitPath(NormalizePath(pattern));
    if Parses(raws) then Some(Segments(raws)) else None
  }

  /** The canonical pattern text stored with a route. */
  function RenderPattern(segs: seq<Segment>): string {
    "/" + Join(Canonicals(segs), "/")
  }

  /** A segment list the parser can produce. */
  predicate ValidPattern(segs: seq<Segment>) {
    && (forall i | 0 <= i < |segs| :: ValidSegment(segs[i]) && Avoids(segs[i].value, '/') && Avoids(segs[i].value, '?'))
    && (forall i | 0 <= i < |segs| - 1 :: !segs[i].Proxy?)
  }

  lemma ParsePatternValid(pattern: string)
    requires ParsePattern(pattern).Some?
    ensures ValidPattern(ParsePattern(pattern).value)
  {
    var raws := SplitPath(NormalizePath(pattern));
    SplitPathAvoids(NormalizePath(pattern), '?');
    forall i | 0 <= i < |raws|
      ensures var seg := ParseSegment(raws[i]).value; ValidSegment(seg) && Avoids(seg.value, '/') && Avoids(seg.value, '?')
    {
      ParseSegmentValid(raws[i]);
      ParseSegmentAvoids(raws[i], '/');
      ParseSegmentAvoids(raws[i], '?');
    }
  }

  /** A list of path segments that some request path splits into. */
  predicate CleanPath(parts: seq<string>) {
    && parts != [""]
    && AllAvoid(parts, '/')
    && (parts != [] ==> var l := parts[|parts| - 1]; l == "" || !IsSpace(l[|l| - 1]))
  }

  /** Rendering a clean segment list and splitting it again changes nothing. */
  lemma SplitRendered(parts: seq<string>)
    requires CleanPath(parts)
    ensures IsTrimmed("/" + Join(parts, "/"))
    ensures SplitPath("/" + Join(parts, "/")) == parts
  {
    hide SplitPath, CleanPath;
    if parts == [] {
      assert Join(parts, "/") == "";
      SplitSlashed("");
    } else {
      CleanJoin(parts);
      CleanAvoids(parts);
      SplitJoin(parts, '/');
      hide Join, Split;
      SplitSlashed(Join(parts, "/"));
    }
  }

  lemma CleanAvoids(parts: seq<string>)
    requires CleanPath(parts)
    ensures AllAvoid(parts, '/')
  {
  }

  /** A path of a slash and more text, not ending in white space, splits as that text does. */
  lemma SplitSlashed(q: string)
    requires q == "" || !IsSpace(q[|q| - 1])
    ensures IsTrimmed("/" + q)
    ensures SplitPath("/" + q) == if q == "" then [] else Split(q, '/')
  {
    var p := "/" + q;
    assert IsTrimmed(p);
    hide IsTrimmed, Split, Join, Trim, AllAvoid;
    assert Trim(p) == p;
    assert p[1..] == q;
  }

  lemma CleanJoin(parts: seq<string>)
    requires CleanPath(parts) && parts != []
    ensures var q := Join(parts, "/"); q != "" && !IsSpace(q[|q| - 1])
  {
    JoinLast(parts, "/");
  }

  /** Parsing the canonical text of a parsed pattern gives the pattern back exactly
      when no parameter name ends in '+'. */
  lemma ReparsePattern(segs: seq<Segment>)
    requires ValidPattern(segs)
    ensures ParsePattern(RenderPattern(segs)) == Some(segs) <==> forall i | 0 <= i < |segs| :: Reparses(segs[i])
  {
    RenderedSplits(segs);
    if forall i | 0 <= i < |segs| :: Reparses(segs[i]) {
      ReparsedSegments(segs);
    } else {
      var i :| 0 <= i < |segs| && !Reparses(segs[i]);
      MisreadSegment(segs, i);
    }
  }

  lemma ReparsedSegments(segs: seq<Segment>)
    requires ValidPattern(segs)
    requires forall i | 0 <= i < |segs| :: Reparses(segs[i])
    ensures var texts := Canonicals(segs); Parses(texts) && Segments(texts) == segs
  {
    var texts := Canonicals(segs);
    forall i | 0 <= i < |segs| ensures ParseSegment(texts[i]) == Some(segs[i]) {
      ReparseSegment(segs[i]);
    }
  }

  lemma MisreadSegment(segs: seq<Segment>, i: nat)
    requires ValidPattern(segs) && i < |segs| && !Reparses(segs[i])
    ensures var texts := Canonicals(segs); Parses(texts) ==> Segments(texts)[i] != segs[i]
  {
    ReparseSegment(segs[i]);
  }

  lemma RenderedSplits(segs: seq<Segment>)
    requires ValidPattern(segs)
    ensures SplitPath(NormalizePath(RenderPattern(segs))) == Canonicals(segs)
  {
    var texts := Canonicals(segs);
    CanonicalsClean(segs);
    SplitRendered(texts);
    JoinAvoids(texts, "/", '?');
  }

  lemma CanonicalsClean(segs: seq<Segment>)
    requires ValidPattern(segs)
    ensures CleanPath(Canonicals(segs))
    ensures AllAvoid(Canonicals(segs), '?')
  {
    forall i | 0 <= i < |segs|
      ensures var t := Canonicals(segs)[i]; Avoids(t, '/') && Avoids(t, '?') && t != "" && !IsSpace(t[|t| - 1])
    {
      assert ValidSegment(segs[i]);
    }
    assert |segs| == 1 ==> Canonicals(segs)[0] != "";
  }
}
