/** Which paths a pattern accepts, what it captures, and how the comparison of two routes
    relates to the sets of paths they accept (`runtime/router.go`). */
module RouteLanguages {
  import opened Text
  import opened RoutePatterns

  // ----- acceptance and captures -----

  predicate SegmentAccepts(seg: Segment, value: string) {
    value != "" && (seg.Param? || (seg.Static? && seg.value == value))
  }

  predicate EndsInProxy(segs: seq<Segment>) {
    segs != [] && segs[|segs| - 1].Proxy?
  }

  /** The number of segments matched one by one, before any proxy tail. */
  function FixedLength(segs: seq<Segment>): (n: nat)
    ensures n <= |segs|
  {
    if EndsInProxy(segs) then |segs| - 1 else |segs|
  }

  /** The pattern accepts the path: segment by segment, with at least one further
      segment (possibly empty) where the pattern ends in a proxy. */
  predicate Accepts(segs: seq<Segment>, path: seq<string>) {
    var n := FixedLength(segs);
    && (if EndsInProxy(segs) then |path| > n else |path| == n)
    && forall i | 0 <= i < n :: SegmentAccepts(segs[i], path[i])
  }

  /** Parameters captured by the first `n` segments; a repeated name keeps its last value. */
  function CapturedUpTo(segs: seq<Segment>, path: seq<string>, n: nat): map<string, string>
    requires n <= |segs| && n <= |path|
  {
    if n == 0 then map[]
    else
      var before := CapturedUpTo(segs, path, n - 1);
      if segs[n - 1].Param? then before[segs[n - 1].value := path[n - 1]] else before
  }

  function Captures(segs: seq<Segment>, path: seq<string>): map<string, string>
    requires Accepts(segs, path)
  {
    var n := FixedLength(segs);
    var fixed := CapturedUpTo(segs, path, n);
    if EndsInProxy(segs) then fixed[segs[n].value := Join(path[n..], "/")] else fixed
  }

  /** `matchRoute`. */
  method MatchRoute(segs: seq<Segment>, path: seq<string>) returns (params: map<string, string>, ok: bool)
    ensures ok <==> Accepts(segs, path)
    ensures ok ==> params == Captures(segs, path)
  {
    params := map[];
    if |segs| == 0 {
      return map[], |path| == 0;
    }
    var hasProxy := segs[|segs| - 1].Proxy?;
    if hasProxy {
      var prefixLen := |segs| - 1;
      if |path| <= prefixLen {
        return map[], false;
      }
      for i := 0 to prefixLen
        invariant forall k | 0 <= k < i :: SegmentAccepts(segs[k], path[k])
        invariant params == CapturedUpTo(segs, path, i)
      {
        var value := path[i];
        if value == "" {
          assert !SegmentAccepts(segs[i], path[i]);
          return map[], false;
        }
        match segs[i]
        case Static(text) =>
          if text != value {
            assert !SegmentAccepts(segs[i], path[i]);
            return map[], false;
          }
        case Param(name) =>
          params := params[name := value];
        case Proxy(_) =>
          assert !SegmentAccepts(segs[i], path[i]);
          return map[], false;
      }
      params := params[segs[prefixLen].value := Join(path[prefixLen..], "/")];
      return params, true;
    }
    if |segs| != |path| {
      return map[], false;
    }
    for i := 0 to |segs|
      invariant forall k | 0 <= k < i :: SegmentAccepts(segs[k], path[k])
      invariant params == CapturedUpTo(segs, path, i)
    {
      var value := path[i];
      if value == "" {
        assert !SegmentAccepts(segs[i], path[i]);
        return map[], false;
      }
      match segs[i]
      case Static(text) =>
        if text != value {
          assert !SegmentAccepts(segs[i], path[i]);
          return map[], false;
        }
      case Param(name) =>
        params := params[name := value];
      case Proxy(_) =>
        assert !SegmentAccepts(segs[i], path[i]);
        return map[], false;
    }
    return params, true;
  }

  // ----- a match is an instantiation of the pattern -----

  predicate CanFill(segs: seq<Segment>, env: map<string, string>) {
    && (forall i | 0 <= i < |segs| :: segs[i].Static? || segs[i].value in env)
    && (forall i | 0 <= i < |segs| :: segs[i].Param? ==> env[segs[i].value] != "")
  }

  function Fill(seg: Segment, env: map<string, string>): string
    requires seg.Static? || seg.value in env
  {
    if seg.Static? then seg.value else env[seg.value]
  }

  /** The path obtained by filling the pattern's names from `env`; the proxy's text is
      a list of segments. */
  function Instantiate(segs: seq<Segment>, env: map<string, string>): (path: seq<string>)
    requires CanFill(segs, env)
  {
    var n := FixedLength(segs);
    var fixed := seq(n, i requires 0 <= i < n => Fill(segs[i], env));
    fixed + if EndsInProxy(segs) then Split(env[segs[n].value], '/') else []
  }

  /** The text that position `i` of the pattern stands for in a matched path. */
  function PartAt(segs: seq<Segment>, path: seq<string>, i: nat): string
    requires Accepts(segs, path) && i < |segs|
  {
    if i < FixedLength(segs) then path[i] else Join(path[i..], "/")
  }

  /** Every name that occurs twice stands for the same text at both places. */
  predicate Consistent(segs: seq<Segment>, path: seq<string>)
    requires Accepts(segs, path)
  {
    forall i, j | 0 <= i < j < |segs| && !segs[i].Static? && !segs[j].Static? && segs[i].value == segs[j].value ::
      PartAt(segs, path, i) == PartAt(segs, path, j)
  }

  /** The last position carrying a name decides its captured value. */
  lemma {:induction false} CapturedValue(segs: seq<Segment>, path: seq<string>, n: nat, i: nat)
    requires i < n <= |segs| && n <= |path| && segs[i].Param?
    requires forall j | i < j < n && segs[j].Param? && segs[j].value == segs[i].value :: path[j] == path[i]
    ensures segs[i].value in CapturedUpTo(segs, path, n)
    ensures CapturedUpTo(segs, path, n)[segs[i].value] == path[i]
  {
    if i < n - 1 {
      CapturedValue(segs, path, n - 1, i);
    }
  }

  lemma CaptureAt(segs: seq<Segment>, path: seq<string>, i: nat)
    requires Accepts(segs, path) && Consistent(segs, path) && i < |segs| && !segs[i].Static?
    ensures segs[i].value in Captures(segs, path) && Captures(segs, path)[segs[i].value] == PartAt(segs, path, i)
  {
    var n := FixedLength(segs);
    if i < n {
      forall j | i < j < n && segs[j].Param? && segs[j].value == segs[i].value ensures path[j] == path[i] {
        assert PartAt(segs, path, i) == PartAt(segs, path, j);
      }
      CapturedValue(segs, path, n, i);
      if EndsInProxy(segs) && segs[n].value == segs[i].value {
        assert PartAt(segs, path, i) == PartAt(segs, path, n);
      }
    }
  }

  /** `env` gives every name of the pattern the text it stands for in the path. */
  ghost predicate Reads(segs: seq<Segment>, path: seq<string>, env: map<string, string>)
    requires Accepts(segs, path)
  {
    forall i | 0 <= i < |segs| && !segs[i].Static? ::
      segs[i].value in env && env[segs[i].value] == PartAt(segs, path, i)
  }

  lemma ReadsRebuilds(segs: seq<Segment>, path: seq<string>, env: map<string, string>)
    requires ValidPattern(segs) && AllAvoid(path, '/') && Accepts(segs, path) && Reads(segs, path, env)
    ensures CanFill(segs, env) && Instantiate(segs, env) == path
  {
    var n := FixedLength(segs);
    hide Avoids, ValidSegment, Join, Split;
    forall i | 0 <= i < |segs| ensures segs[i].Static? || segs[i].value in env {
    }
    forall i | 0 <= i < n ensures SegmentAccepts(segs[i], path[i]) && Fill(segs[i], env) == path[i] {
    }
    TailRebuilds(segs, path);
    assert path == path[..n] + path[n..];
  }

  lemma TailRebuilds(segs: seq<Segment>, path: seq<string>)
    requires AllAvoid(path, '/') && Accepts(segs, path)
    ensures var n := FixedLength(segs);
            if EndsInProxy(segs) then Split(Join(path[n..], "/"), '/') == path[n..] else path[n..] == []
  {
    if EndsInProxy(segs) {
      SplitJoin(path[FixedLength(segs)..], '/');
    }
  }

  /** Substituting the captured parameters rebuilds exactly the matched path. */
  lemma CapturesRebuild(segs: seq<Segment>, path: seq<string>)
    requires ValidPattern(segs) && AllAvoid(path, '/')
    requires Accepts(segs, path) && Consistent(segs, path)
    ensures CanFill(segs, Captures(segs, path))
    ensures Instantiate(segs, Captures(segs, path)) == path
  {
    hide ValidPattern, Captures, CanFill, Instantiate, AllAvoid;
    var env := Captures(segs, path);
    forall i | 0 <= i < |segs| && !segs[i].Static?
      ensures segs[i].value in env && env[segs[i].value] == PartAt(segs, path, i)
    {
      CaptureAt(segs, path, i);
    }
    ReadsRebuilds(segs, path, env);
  }

  lemma InstantiationParts(segs: seq<Segment>, env: map<string, string>)
    requires CanFill(segs, env)
    ensures var n := FixedLength(segs); var path := Instantiate(segs, env);
            && |path| >= n && (forall i | 0 <= i < n :: path[i] == Fill(segs[i], env))
            && path[n..] == if EndsInProxy(segs) then Split(env[segs[n].value], '/') else []
  {
    hide Split;
  }

  /** Any instantiation of a pattern is accepted, and consistently. */
  lemma InstantiationAccepted(segs: seq<Segment>, env: map<string, string>)
    requires ValidPattern(segs) && CanFill(segs, env)
    ensures Accepts(segs, Instantiate(segs, env)) && Consistent(segs, Instantiate(segs, env))
  {
    var path := Instantiate(segs, env);
    var n := FixedLength(segs);
    InstantiationParts(segs, env);
    hide Instantiate, Split, Join, Avoids;
    forall i | 0 <= i < n ensures SegmentAccepts(segs[i], path[i]) {
      assert ValidSegment(segs[i]);
    }
    if EndsInProxy(segs) {
      JoinSplit(env[segs[n].value], '/');
    }
    assert forall i | 0 <= i < |segs| && !segs[i].Static? :: PartAt(segs, path, i) == env[segs[i].value];
  }

  /** A path matches consistently exactly when it is an instantiation of the pattern, and
      then the captured parameters are such an instantiation. */
  lemma MatchIsInstantiation(segs: seq<Segment>, path: seq<string>)
    requires ValidPattern(segs) && AllAvoid(path, '/')
    ensures (Accepts(segs, path) && Consistent(segs, path)) <==>
            (exists env :: CanFill(segs, env) && Instantiate(segs, env) == path)
    ensures Accepts(segs, path) && Consistent(segs, path) ==>
            CanFill(segs, Captures(segs, path)) && Instantiate(segs, Captures(segs, path)) == path
  {
    if Accepts(segs, path) && Consistent(segs, path) {
      CapturesRebuild(segs, path);
    }
    forall env | CanFill(segs, env) && Instantiate(segs, env) == path
      ensures Accepts(segs, path) && Consistent(segs, path)
    {
      InstantiationAccepted(segs, env);
    }
  }

  predicate DistinctNames(segs: seq<Segment>) {
    forall i, j | 0 <= i < j < |segs| && !segs[i].Static? && !segs[j].Static? :: segs[i].value != segs[j].value
  }

  /** With pairwise distinct names, matching alone decides, and every match can be undone. */
  lemma DistinctNamesMatch(segs: seq<Segment>, path: seq<string>)
    requires ValidPattern(segs) && AllAvoid(path, '/') && DistinctNames(segs)
    ensures Accepts(segs, path) <==> exists env :: CanFill(segs, env) && Instantiate(segs, env) == path
    ensures Accepts(segs, path) ==>
            CanFill(segs, Captures(segs, path)) && Instantiate(segs, Captures(segs, path)) == path
  {
    assert Accepts(segs, path) ==> Consistent(segs, path);
    MatchIsInstantiation(segs, path);
  }

  /** With a repeated name the match can lose text: `/{a}/{a}` accepts `/x/y` but keeps only "y". */
  lemma RepeatedNameLosesText()
    ensures var segs := [Param("a"), Param("a")];
            && ValidPattern(segs) && Accepts(segs, ["x", "y"])
            && CanFill(segs, Captures(segs, ["x", "y"]))
            && Instantiate(segs, Captures(segs, ["x", "y"])) == ["y", "y"]
  {
    var segs := [Param("a"), Param("a")];
    var path := ["x", "y"];
    assert CapturedUpTo(segs, path, 0) == map[];
    assert CapturedUpTo(segs, path, 1) == map["a" := "x"];
    assert CapturedUpTo(segs, path, 2) == map["a" := "y"];
  }

  /** A non-blank text that stands for one path segment. */
  predicate PlainPart(s: string) {
    s != "" && IsTrimmed(s) && Avoids(s, '/')
  }

  /** Plain parts that agree with the pattern's static segments, and number as many as it needs. */
  predicate Fits(segs: seq<Segment>, parts: seq<string>) {
    && (if EndsInProxy(segs) then |parts| >= |segs| else |parts| == |segs|)
    && (forall i | 0 <= i < |parts| :: PlainPart(parts[i]))
    && (forall i | 0 <= i < |segs| && segs[i].Static? :: parts[i] == segs[i].value)
  }

  /** Fitting parts are the split of an actual path text, which the pattern accepts. */
  lemma FittingAccepted(segs: seq<Segment>, parts: seq<string>) returns (path: string)
    requires ValidPattern(segs) && Fits(segs, parts)
    ensures SplitPath(path) == parts && AcceptsText(segs, path)
  {
    PartsClean(parts);
    FitsAccepted(segs, parts);
    hide CleanPath, SplitPath, PlainPart, Accepts, ValidPattern;
    SplitRendered(parts);
    path := "/" + Join(parts, "/");
  }

  lemma FitsAccepted(segs: seq<Segment>, parts: seq<string>)
    requires ValidPattern(segs) && Fits(segs, parts)
    ensures Accepts(segs, parts)
  {
    hide ValidSegment, Avoids;
    forall i | 0 <= i < FixedLength(segs) ensures SegmentAccepts(segs[i], parts[i]) {
      assert PlainPart(parts[i]);
    }
  }

  lemma PartsClean(parts: seq<string>)
    requires forall i | 0 <= i < |parts| :: PlainPart(parts[i])
    ensures CleanPath(parts)
  {
    assert parts != [] ==> PlainPart(parts[|parts| - 1]) && PlainPart(parts[0]);
    hide Avoids;
  }

  /** The texts under which a match shows whether position `i` agrees with the other names: "y" there,
      "x" at every other name. */
  function Differing(segs: seq<Segment>, i: nat): (parts: seq<string>)
    ensures |parts| == |segs|
    ensures forall k | 0 <= k < |segs| ::
              parts[k] == if segs[k].Static? then segs[k].value else if k == i then "y" else "x"
  {
    seq(|segs|, k requires 0 <= k < |segs| =>
      if segs[k].Static? then segs[k].value else if k == i then "y" else "x")
  }

  lemma StaticsPlain(segs: seq<Segment>)
    requires ValidPattern(segs)
    ensures forall i | 0 <= i < |segs| && segs[i].Static? :: PlainPart(segs[i].value)
  {
    forall i | 0 <= i < |segs| ensures PlainPart(segs[i].value) {
      assert ValidSegment(segs[i]);
    }
  }

  lemma DifferingFits(segs: seq<Segment>, i: nat)
    requires ValidPattern(segs)
    ensures Fits(segs, Differing(segs, i))
  {
    assert PlainPart("x") && PlainPart("y");
    StaticsPlain(segs);
    hide PlainPart, ValidPattern;
  }

  /** Every match of a pattern can be undone exactly when its names are pairwise distinct: a pattern
      that repeats a name accepts a path text of which it loses part. */
  lemma UndoableExactly(segs: seq<Segment>)
    requires ValidPattern(segs)
    ensures DistinctNames(segs) <==>
            forall path: string | AcceptsText(segs, path) :: InstantiationOf(segs, SplitPath(path))
  {
    hide SplitPath, Instantiate, CanFill, ValidPattern, Accepts;
    if DistinctNames(segs) {
      forall path: string | AcceptsText(segs, path) ensures InstantiationOf(segs, SplitPath(path)) {
        DistinctNamesMatch(segs, SplitPath(path));
      }
    } else {
      var i, j :| 0 <= i < j < |segs| && !segs[i].Static? && !segs[j].Static? && segs[i].value == segs[j].value;
      DifferingFits(segs, i);
      var path := FittingAccepted(segs, Differing(segs, i));
      DifferingInconsistent(segs, i, j);
      MatchIsInstantiation(segs, SplitPath(path));
    }
  }

  ghost predicate InstantiationOf(segs: seq<Segment>, path: seq<string>) {
    exists env :: CanFill(segs, env) && Instantiate(segs, env) == path
  }

  lemma DifferingInconsistent(segs: seq<Segment>, i: nat, j: nat)
    requires ValidPattern(segs) && i < j < |segs|
    requires !segs[i].Static? && !segs[j].Static? && segs[i].value == segs[j].value
    requires Accepts(segs, Differing(segs, i))
    ensures !Consistent(segs, Differing(segs, i))
  {
    var path := Differing(segs, i);
    hide Accepts;
    assert i < FixedLength(segs) && PartAt(segs, path, i) == "y";
    assert path[j..][0] == "x";
    assert j < FixedLength(segs) ==> PartAt(segs, path, j) == "x";
    assert j >= FixedLength(segs) ==> path[j..] == ["x"];
    assert PartAt(segs, path, i) != PartAt(segs, path, j);
  }

  // ----- the comparison of two patterns -----

  function StaticCount(segs: seq<Segment>): nat {
    if segs == [] then 0 else (if segs[0].Static? then 1 else 0) + StaticCount(segs[1..])
  }

  function ParamCount(segs: seq<Segment>): nat {
    if segs == [] then 0 else (if segs[0].Param? then 1 else 0) + ParamCount(segs[1..])
  }

  /** `general` accepts every value that `special` accepts. */
  predicate Covers(general: Segment, special: Segment) {
    !special.Proxy? && (general.Param? || general == special)
  }

  /** A segment-by-segment test for inclusion of the accepted paths. */
  predicate ShapeIncluded(p: seq<Segment>, q: seq<Segment>) {
    && (if EndsInProxy(q) then |p| >= |q| else |p| == |q| && !EndsInProxy(p))
    && forall i | 0 <= i < FixedLength(q) :: Covers(q[i], p[i])
  }

  lemma ShapeTail(p: seq<Segment>, q: seq<Segment>)
    requires ShapeIncluded(p, q) && FixedLength(q) > 0
    ensures p != [] && Covers(q[0], p[0])
    ensures ShapeIncluded(p[1..], q[1..])
    ensures EndsInProxy(p[1..]) == EndsInProxy(p) && EndsInProxy(q[1..]) == EndsInProxy(q)
  {
  }

  lemma ShapeCons(p: seq<Segment>, q: seq<Segment>)
    requires p != [] && q != [] && Covers(q[0], p[0])
    requires ShapeIncluded(p[1..], q[1..])
    requires EndsInProxy(p[1..]) == EndsInProxy(p) && EndsInProxy(q[1..]) == EndsInProxy(q)
    ensures ShapeIncluded(p, q)
  {
    forall i | 0 <= i < FixedLength(q) ensures Covers(q[i], p[i]) {
      if i > 0 {
        var j := i - 1;
        assert Covers(q[1..][j], p[1..][j]);
      }
    }
  }

  /** Included patterns have at least as many static segments; on a tie at least as many
      parameters; and only patterns accepting the same paths agree on everything. */
  lemma {:induction false} ShapeCounts(p: seq<Segment>, q: seq<Segment>)
    requires ValidPattern(p) && ValidPattern(q) && ShapeIncluded(p, q)
    ensures StaticCount(p) >= StaticCount(q)
    ensures StaticCount(p) == StaticCount(q) ==> ParamCount(p) >= ParamCount(q)
    ensures StaticCount(p) == StaticCount(q) && ParamCount(p) == ParamCount(q) ==> (EndsInProxy(p) ==> EndsInProxy(q))
    ensures StaticCount(p) == StaticCount(q) && ParamCount(p) == ParamCount(q) && EndsInProxy(p) == EndsInProxy(q) ==>
              ShapeIncluded(q, p)
  {
    if FixedLength(q) == 0 {
      assert |p| > 1 ==> !p[0].Proxy?;
    } else {
      ShapeTail(p, q);
      ShapeCounts(p[1..], q[1..]);
      if ShapeIncluded(q[1..], p[1..]) && Covers(p[0], q[0]) {
        ShapeCons(q, p);
      }
    }
  }

  // ----- the paths a pattern accepts -----

  /** The path text reaches the pattern through `splitPath`. */
  predicate AcceptsText(segs: seq<Segment>, path: string) {
    Accepts(segs, SplitPath(path))
  }

  /** Every path accepted by `p` is accepted by `q`. */
  ghost predicate Included(p: seq<Segment>, q: seq<Segment>) {
    forall path: string :: AcceptsText(p, path) ==> AcceptsText(q, path)
  }

  /** A path accepted by `p`: parameters and the first tail segment read `fill`, followed by
      `extra` further tail segments if there is a proxy. */
  function Sample(p: seq<Segment>, fill: string, extra: nat): (path: seq<string>)
    ensures |path| == |p| + if EndsInProxy(p) then extra else 0
    ensures forall i | 0 <= i < |p| :: path[i] == if p[i].Static? then p[i].value else fill
    ensures forall i | |p| <= i < |path| :: path[i] == fill
  {
    seq(|p| + if EndsInProxy(p) then extra else 0, i requires 0 <= i =>
      if i < |p| && p[i].Static? then p[i].value else fill)
  }

  /** The sample is the split of an actual path text, and the pattern accepts it. */
  lemma SampleAccepted(p: seq<Segment>, fill: string, extra: nat) returns (path: string)
    requires ValidPattern(p) && PlainPart(fill)
    ensures SplitPath(path) == Sample(p, fill, extra)
    ensures AcceptsText(p, path)
  {
    StaticsPlain(p);
    hide PlainPart, SplitPath;
    path := FittingAccepted(p, Sample(p, fill, extra));
  }

  lemma ShapeImpliesIncluded(p: seq<Segment>, q: seq<Segment>)
    requires ShapeIncluded(p, q)
    ensures Included(p, q)
  {
    forall path: string | AcceptsText(p, path) ensures AcceptsText(q, path) {
      var parts := SplitPath(path);
      forall i | 0 <= i < FixedLength(q) ensures SegmentAccepts(q[i], parts[i]) {
        assert Covers(q[i], p[i]);
        assert SegmentAccepts(p[i], parts[i]);
      }
    }
  }

  lemma IncludedImpliesLength(p: seq<Segment>, q: seq<Segment>)
    requires ValidPattern(p) && ValidPattern(q) && Included(p, q)
    ensures if EndsInProxy(q) then |p| >= |q| else |p| == |q| && !EndsInProxy(p)
  {
    var short := SampleAccepted(p, "x", 0);
    var long := SampleAccepted(p, "x", 1);
    assert AcceptsText(q, short) && AcceptsText(q, long);
  }

  /** Inclusion of the accepted paths is exactly the segment-by-segment test. */
  lemma InclusionIsShape(p: seq<Segment>, q: seq<Segment>)
    requires ValidPattern(p) && ValidPattern(q)
    ensures Included(p, q) <==> ShapeIncluded(p, q)
  {
    if ShapeIncluded(p, q) {
      ShapeImpliesIncluded(p, q);
    }
    if Included(p, q) {
      IncludedImpliesLength(p, q);
      forall i | 0 <= i < FixedLength(q) ensures Covers(q[i], p[i]) {
        var fill := if q[i].value == "x" then "y" else "x";
        var path := SampleAccepted(p, fill, 0);
        assert AcceptsText(q, path);
        assert SegmentAccepts(q[i], SplitPath(path)[i]);
      }
    }
  }
}
