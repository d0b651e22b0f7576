/** Exactly when the reference computed by relative_url leads from the source to the target. */
module RelativeUrlTheorems {
  import opened Text
  import opened Collections
  import opened UriReference
  import opened RelativeUrl

  // An absolute URL with an absolute path, as urlparse splits it, and without dot segments.
  ghost predicate Clean(u: Url)
  {
    && u.scheme != "" && Without(u.scheme, ":/?#") && Without(u.netloc, "/?#")
    && u.path != "" && u.path[0] == '/' && Without(u.path, "?#")
    && Without(u.params, "/?#") && Without(u.query, "#")
    && NoDots(Segments(u.path))
  }

  function Segments(path: string): seq<string> { Split(path, '/')[1..] }

  // The reference starts with a scheme by mistake: a colon in the first segment.
  predicate HasScheme(f: string)
  {
    var i := Span(f, ":/?#"); 0 < i < |f| && f[i] == ':'
  }

  // The path of a reference which does not go up: the last segment itself, or what is left of the target.
  function DownPath(down: seq<string>, target: Url): string { Join(down, "/") + Suffix(";", target.params) }

  predicate Reads(f: string) { f != "" && f[0] != '/' && !HasScheme(f) }

  // The condition, on what is left of both paths once their equal leading segments are removed.
  predicate Recovers(source: Url, target: Url)
  {
    var s, t := Segments(source.path), Segments(target.path);
    var up, down := s[Common(s, t)..], t[Common(s, t)..];
    if source.scheme != target.scheme || source.netloc != target.netloc then true
    else if up == [] && down == [] then
      var f := DownPath(if t == [] then [] else [t[|t| - 1]], target);
      if f == "" then source.params == "" && (target.query != "" || source.query == "") else Reads(f)
    else if up == [""] && down == [] then true
    else if up == [] || down == [] then false
    else |up| > 1 || Reads(DownPath(down, target))
  }

  // ---- parsing what the program prints ----

  function Tail(u: Url): string { Suffix("?", u.query) + Suffix("#", u.fragment) }

  lemma TailStart(u: Url)
    ensures Tail(u) != "" ==> Tail(u)[0] == '?' || Tail(u)[0] == '#'
  {
  }

  lemma ParseTail(scheme: Option<string>, authority: Option<string>, f: string, u: Url)
    requires Without(f, "?#") && Without(u.query, "#")
    ensures ParsePath(scheme, authority, f + Tail(u)) == Parts(scheme, authority, f, Defined(u.query), Defined(u.fragment))
  {
    TailStart(u);
    SpanAt(f, Tail(u), "?#");
    assert (f + Tail(u))[|f|..] == Tail(u);
    if u.query != "" {
      var rest := Suffix("#", u.fragment);
      assert Tail(u)[1..] == u.query + rest;
      SpanAt(u.query, rest, "#");
      assert (u.query + rest)[..|u.query|] == u.query && (u.query + rest)[|u.query|..] == rest;
    } else {
      assert Tail(u) == Suffix("#", u.fragment);
    }
  }

  lemma SpanOfText(f: string, u: Url)
    requires Without(f, "?#")
    ensures
      var i, s := Span(f + Tail(u), ":/?#"), f + Tail(u);
      && (0 < i < |s| && s[i] == ':' <==> HasScheme(f))
      && (HasScheme(f) ==> i == Span(f, ":/?#"))
  {
    TailStart(u);
    var j, s := Span(f, ":/?#"), f + Tail(u);
    var a, b := f[..j], f[j..] + Tail(u);
    assert s == a + b;
    SpanAt(a, b, ":/?#");
    assert j < |f| ==> b[0] == f[j];
  }

  lemma AuthorityPath(scheme: Option<string>, g: string, u: Url)
    requires Without(g, "?#") && Without(u.query, "#")
    ensures |ParseAuthority(scheme, g + Tail(u)).path| <= |g|
    ensures !("//" <= g) ==>
      ParseAuthority(scheme, g + Tail(u)) == Parts(scheme, None, g, Defined(u.query), Defined(u.fragment))
    ensures ParseAuthority(scheme, g + Tail(u)).scheme == scheme
    ensures ParseAuthority(scheme, g + Tail(u)).authority == None ==> ParseAuthority(scheme, g + Tail(u)).path == g
  {
    TailStart(u);
    var s := g + Tail(u);
    assert |g| >= 1 ==> s[0] == g[0];
    assert |g| >= 2 ==> s[1] == g[1];
    if "//" <= s {
      assert s[0] == '/' && s[1] == '/';
      assert s[2..] == g[2..] + Tail(u);
      NetlocPath(scheme, g[2..], u);
    } else {
      ParseTail(scheme, None, g, u);
    }
  }

  // What is left after the name of the site.
  lemma NetlocPath(scheme: Option<string>, g: string, u: Url)
    requires Without(g, "?#") && Without(u.query, "#")
    ensures
      var h := g + Tail(u);
      var i := Span(h, "/?#");
      i <= |g| && ParsePath(scheme, Some(h[..i]), h[i..]) == Parts(scheme, Some(h[..i]), g[i..], Defined(u.query), Defined(u.fragment))
  {
    TailStart(u);
    var i := Span(g, "/?#");
    var a, b := g[..i], g[i..];
    assert g == a + b;
    Associative(a, b, Tail(u));
    SpanAt(a, b + Tail(u), "/?#");
    assert (a + (b + Tail(u)))[i..] == b + Tail(u);
    assert Without(b, "?#");
    ParseTail(scheme, Some((g + Tail(u))[..i]), b, u);
  }

  lemma ParseReadable(f: string, u: Url)
    requires Without(f, "?#") && Without(u.query, "#")
    requires !HasScheme(f) && (f == "" || f[0] != '/')
    ensures Parse(f + Tail(u)) == Parts(None, None, f, Defined(u.query), Defined(u.fragment))
  {
    SpanOfText(f, u);
    AuthorityPath(None, f, u);
  }

  lemma ResolveShort(base: Parts, r: Parts)
    requires r.scheme.Some? || r.authority.Some? || (r.path != "" && r.path[0] == '/')
    ensures |Resolve(base, r).path| <= |r.path|
  {
  }

  // A reference which is rooted, or taken for another scheme, only leads to paths shorter than itself.
  lemma ShortPath(base: Parts, f: string, u: Url)
    requires Without(f, "?#") && Without(u.query, "#")
    requires HasScheme(f) || (f != "" && f[0] == '/')
    ensures |Resolve(base, Parse(f + Tail(u))).path| <= |f| - if HasScheme(f) then 2 else 0
  {
    if HasScheme(f) {
      OtherScheme(f, u);
    } else {
      Rooted(f, u);
    }
    ResolveShort(base, Parse(f + Tail(u)));
  }

  lemma OtherScheme(f: string, u: Url)
    requires Without(f, "?#") && Without(u.query, "#") && HasScheme(f)
    ensures Parse(f + Tail(u)).scheme.Some? && |Parse(f + Tail(u)).path| <= |f| - 2
  {
    SpanOfText(f, u);
    var s, i := f + Tail(u), Span(f, ":/?#");
    assert s[i + 1..] == f[i + 1..] + Tail(u);
    AuthorityPath(Some(s[..i]), f[i + 1..], u);
  }

  lemma Rooted(f: string, u: Url)
    requires Without(f, "?#") && Without(u.query, "#") && !HasScheme(f) && f != "" && f[0] == '/'
    ensures
      var r := Parse(f + Tail(u));
      (r.authority.Some? || (r.path != "" && r.path[0] == '/')) && |r.path| <= |f|
  {
    SpanOfText(f, u);
    AuthorityPath(None, f, u);
  }

  // ---- the paths as segments ----

  lemma PathIs(path: string)
    requires path != "" && path[0] == '/'
    ensures Split(path, '/') == [""] + Segments(path)
    ensures Segments(path) != [] && Plain(Segments(path)) && Slashed(Segments(path)) == path
  {
    assert IndexOf(path, '/') == 0;
    JoinSplit(path, '/');
    assert path == "/" + path[1..];
    SplitAt("", '/', path[1..]);
    assert Split(path, '/') == [""] + Split(path[1..], '/');
    JoinSplit(path[1..], '/');
    SlashedJoin(Segments(path));
  }

  // The last segment carries the params.
  function WithParams(segs: seq<string>, p: string): seq<string>
    requires segs != []
  {
    segs[..|segs| - 1] + [segs[|segs| - 1] + p]
  }

  lemma WithParamsIs(segs: seq<string>, u: Url)
    requires segs != [] && Plain(segs) && Without(u.params, "/?#")
    ensures Slashed(WithParams(segs, Suffix(";", u.params))) == Slashed(segs) + Suffix(";", u.params)
    ensures Plain(WithParams(segs, Suffix(";", u.params)))
    ensures NoDots(segs) ==> NoDots(WithParams(segs, Suffix(";", u.params)))
  {
    var p := Suffix(";", u.params);
    var init, last := segs[..|segs| - 1], segs[|segs| - 1];
    assert last in segs && forall s :: s in init ==> s in segs;
    SlashedLast(segs);
    SlashedConcat(init, [last + p]);
    SlashedOne(last + p);
    Associative("/", last, p);
    Associative(Slashed(init), "/" + last, p);
    Associative(Slashed(init), "/", last);
    assert p != "" ==> p[0] == ';' && |p| >= 2;
    assert p != "" ==> (last + p)[|last|] == ';';
    assert p == "" ==> last + p == last;
  }

  // Merging a reference with the directory of the source, then removing the dots.
  lemma Merged(source: Url, segs: seq<string>, u: Url)
    requires Clean(source) && Clean(u) && segs != [] && Plain(segs)
    requires var f := DownPath(segs, u); f != "" && f[0] != '/'
    ensures
      var s := Segments(source.path);
      var f := DownPath(segs, u);
      RemoveDots(Merge(Components(source), f), "") ==
        Slashed(Normal(s[..|s| - 1] + WithParams(segs, Suffix(";", u.params)), []))
  {
    var s, f := Segments(source.path), DownPath(segs, u);
    PathIs(source.path);
    var dir, last, p := s[..|s| - 1], s[|s| - 1] + Suffix(";", source.params), WithParams(segs, Suffix(";", u.params));
    SlashedLast(s);
    assert s[|s| - 1] in s && forall x :: x in dir ==> x in s;
    var base := Components(source).path;
    Associative(Slashed(dir) + "/", s[|s| - 1], Suffix(";", source.params));
    assert base == Slashed(dir) + "/" + last;
    RFindAt(Slashed(dir), '/', last);
    assert base[..|Slashed(dir)| + 1] == Slashed(dir) + "/";
    SlashedJoin(segs);
    WithParamsIs(segs, u);
    Associative("/", Join(segs, "/"), Suffix(";", u.params));
    Associative(Slashed(dir), "/", f);
    SlashedConcat(dir, p);
    RemoveDotsSegments(dir + p, []);
  }

  // ---- the reference which is printed ----

  ghost predicate SameSite(source: Url, target: Url)
  {
    Clean(source) && Clean(target) && source.scheme == target.scheme && source.netloc == target.netloc
  }

  function PrintedSegments(s: seq<string>, t: seq<string>): seq<string>
    requires t != []
  {
    Steps(s[Common(s, t)..], t[Common(s, t)..], t[|t| - 1])
  }

  lemma SegmentsArePrinted(s: seq<string>, t: seq<string>)
    requires t != []
    ensures RelativeSegments([""] + s, [""] + t) == PrintedSegments(s, t)
  {
    var c := Common(s, t);
    assert ([""] + s)[1..] == s && ([""] + t)[1..] == t;
    assert Common([""] + s, [""] + t) == 1 + c;
    assert ([""] + s)[1 + c..] == s[c..] && ([""] + t)[1 + c..] == t[c..];
    assert c > 0 ==> ([""] + t)[c] == t[c - 1];
    assert t[c..] == [] ==> c == |t|;
  }

  lemma Printed(source: Url, target: Url)
    requires SameSite(source, target)
    ensures Segments(target.path) != []
    ensures RelativeTo(source, target) ==
      DownPath(PrintedSegments(Segments(source.path), Segments(target.path)), target) + Tail(target)
  {
    PathIs(source.path);
    PathIs(target.path);
    var s, t := Segments(source.path), Segments(target.path);
    SegmentsArePrinted(s, t);
    Associative(DownPath(PrintedSegments(s, t), target), Suffix("?", target.query), Suffix("#", target.fragment));
  }

  lemma DownPathIsText(segs: seq<string>, u: Url)
    requires Clean(u) && forall s :: s in segs ==> Without(s, "?#")
    ensures Without(DownPath(segs, u), "?#")
  {
    JoinWithout(segs);
    var f, j := DownPath(segs, u), Join(segs, "/");
    assert forall k :: 0 <= k < |f| ==> f[k] == if k < |j| then j[k] else Suffix(";", u.params)[k - |j|];
  }

  lemma {:induction false} JoinWithout(segs: seq<string>)
    requires forall s :: s in segs ==> Without(s, "?#")
    ensures Without(Join(segs, "/"), "?#")
  {
    if |segs| > 1 {
      JoinWithout(segs[1..]);
      assert segs[0] in segs;
    } else if |segs| == 1 {
      assert segs[0] in segs;
    }
  }

  lemma {:induction false} SplitWithout(path: string)
    requires Without(path, "?#")
    ensures forall s :: s in Split(path, '/') ==> Without(s, "?#")
    decreases |path|
  {
    var i := IndexOf(path, '/');
    if i < |path| {
      SplitWithout(path[i + 1..]);
    }
  }

  // ---- the references which lead back ----

  lemma Climb(dir: seq<string>, n: nat, b: seq<string>)
    requires n <= |dir| && NoDots(dir) && NoDots(b) && b != []
    ensures Normal(dir + (Ups(n) + b), []) == dir[..|dir| - n] + b
  {
    NormalPlain(dir, Ups(n) + b, []);
    assert [] + dir == dir;
    NormalUps(n, b, dir);
    NormalPlain(b, [], dir[..|dir| - n]);
    assert b + [] == b;
  }

  // n steps up from the directory of the source, then down.
  lemma ClimbPath(source: Url, target: Url, n: nat, down: seq<string>)
    requires SameSite(source, target) && n < |Segments(source.path)|
    requires down != [] && Plain(down) && NoDots(down)
    requires Reads(DownPath(Ups(n) + down, target))
    ensures
      var s := Segments(source.path);
      RemoveDots(Merge(Components(source), DownPath(Ups(n) + down, target)), "") ==
        Slashed(s[..|s| - 1 - n] + down) + Suffix(";", target.params)
  {
    MergedClimb(source, target, n, down);
    ClimbedPath(source, target, n, down);
  }

  lemma MergedClimb(source: Url, target: Url, n: nat, down: seq<string>)
    requires SameSite(source, target) && down != [] && Plain(down)
    requires var f := DownPath(Ups(n) + down, target); f != "" && f[0] != '/'
    ensures
      var s := Segments(source.path);
      RemoveDots(Merge(Components(source), DownPath(Ups(n) + down, target)), "") ==
        Slashed(Normal(s[..|s| - 1] + WithParams(Ups(n) + down, Suffix(";", target.params)), []))
  {
    UpsArePlain(n, down);
    Merged(source, Ups(n) + down, target);
  }

  lemma ClimbedPath(source: Url, target: Url, n: nat, down: seq<string>)
    requires SameSite(source, target) && n < |Segments(source.path)|
    requires down != [] && Plain(down) && NoDots(down)
    ensures
      var s := Segments(source.path);
      Slashed(Normal(s[..|s| - 1] + WithParams(Ups(n) + down, Suffix(";", target.params)), [])) ==
        Slashed(s[..|s| - 1 - n] + down) + Suffix(";", target.params)
  {
    ClimbSegments(Segments(source.path), n, down, target);
  }

  lemma UpsArePlain(n: nat, down: seq<string>)
    requires Plain(down)
    ensures Plain(Ups(n) + down)
  {
    assert forall s :: s in Ups(n) ==> s == "..";
    assert '/' !in "..";
  }

  lemma WithParamsAfter(a: seq<string>, b: seq<string>, p: string)
    requires b != []
    ensures WithParams(a + b, p) == a + WithParams(b, p)
  {
  }

  lemma ClimbSegments(s: seq<string>, n: nat, down: seq<string>, u: Url)
    requires n < |s| && NoDots(s) && down != [] && Plain(down) && NoDots(down) && Without(u.params, "/?#")
    ensures Slashed(Normal(s[..|s| - 1] + WithParams(Ups(n) + down, Suffix(";", u.params)), [])) ==
      Slashed(s[..|s| - 1 - n] + down) + Suffix(";", u.params)
  {
    var p := Suffix(";", u.params);
    var dir, up := s[..|s| - 1], s[..|s| - 1 - n];
    WithParamsAfter(Ups(n), down, p);
    WithParamsIs(down, u);
    assert forall x :: x in dir ==> x in s;
    Climb(dir, n, WithParams(down, p));
    assert dir[..|dir| - n] == up;
    SlashedConcat(up, WithParams(down, p));
    SlashedConcat(up, down);
    Associative(Slashed(up), Slashed(down), p);
  }

  lemma ClimbAndResolve(source: Url, target: Url, n: nat, down: seq<string>)
    requires SameSite(source, target) && n < |Segments(source.path)|
    requires down != [] && Plain(down) && NoDots(down) && forall s :: s in down ==> Without(s, "?#")
    requires Reads(DownPath(Ups(n) + down, target))
    ensures
      var s := Segments(source.path);
      Resolve(Components(source), Parse(DownPath(Ups(n) + down, target) + Tail(target))) ==
        Components(target).(path := Slashed(s[..|s| - 1 - n] + down) + Suffix(";", target.params))
  {
    var f := DownPath(Ups(n) + down, target);
    DownPathIsText(Ups(n) + down, target);
    ParseReadable(f, target);
    ClimbPath(source, target, n, down);
  }

  lemma UpReads(n: nat, down: seq<string>, u: Url)
    requires n > 0 && down != []
    ensures Reads(DownPath(Ups(n) + down, u))
  {
    var segs := Ups(n) + down;
    var f := DownPath(segs, u);
    assert segs[0] == "..";
    assert f == "../" + (Join(segs[1..], "/") + Suffix(";", u.params));
    assert f[0] == '.' && f[1] == '.' && f[2] == '/';
    var rest := "/" + (Join(segs[1..], "/") + Suffix(";", u.params));
    assert f == ".." + rest;
    SpanAt("..", rest, ":/?#");
  }

  lemma TargetPath(target: Url, k: nat)
    requires Clean(target) && k <= |Segments(target.path)|
    ensures var t := Segments(target.path);
      && Components(target).path == Slashed(t[..k] + t[k..]) + Suffix(";", target.params)
      && Plain(t[k..]) && NoDots(t[k..]) && forall s :: s in t[k..] ==> Without(s, "?#")
  {
    var t := Segments(target.path);
    PathIs(target.path);
    assert t[..k] + t[k..] == t;
    SplitWithout(target.path);
    assert forall s :: s in t[k..] ==> s in t;
    assert forall s :: s in t ==> s in Split(target.path, '/');
  }

  // A printed reference which goes n steps up, then down to the target.
  lemma RecoverBy(source: Url, target: Url, n: nat, k: nat)
    requires SameSite(source, target) && n < |Segments(source.path)| && k < |Segments(target.path)|
    requires
      var s, t := Segments(source.path), Segments(target.path);
      && PrintedSegments(s, t) == Ups(n) + t[k..] && s[..|s| - 1 - n] == t[..k]
      && Reads(DownPath(Ups(n) + t[k..], target))
    ensures Resolve(Components(source), Parse(RelativeTo(source, target))) == Components(target)
  {
    Printed(source, target);
    TargetPath(target, k);
    ClimbAndResolve(source, target, n, Segments(target.path)[k..]);
  }

  // Two different paths, neither below the other.
  lemma SiblingsRecover(source: Url, target: Url)
    requires SameSite(source, target) && Recovers(source, target)
    requires var s, t := Segments(source.path), Segments(target.path); s[Common(s, t)..] != [] && t[Common(s, t)..] != []
    ensures Resolve(Components(source), Parse(RelativeTo(source, target))) == Components(target)
  {
    var s, t := Segments(source.path), Segments(target.path);
    var c := Common(s, t);
    var n := |s| - c - 1;
    if n > 0 {
      UpReads(n, t[c..], target);
    } else {
      assert Ups(0) + t[c..] == t[c..];
    }
    PathIs(target.path);
    RecoverBy(source, target, n, c);
  }

  // The target is the directory of which the source is the empty name.
  lemma DirectoryRecovers(source: Url, target: Url)
    requires SameSite(source, target)
    requires var s, t := Segments(source.path), Segments(target.path); s[Common(s, t)..] == [""] && t[Common(s, t)..] == []
    ensures Resolve(Components(source), Parse(RelativeTo(source, target))) == Components(target)
  {
    PathIs(target.path);
    DirectorySegments(Segments(source.path), Segments(target.path));
    var k := |Segments(target.path)| - 1;
    UpReads(1, Segments(target.path)[k..], target);
    RecoverBy(source, target, 1, k);
  }

  lemma DirectorySegments(s: seq<string>, t: seq<string>)
    requires t != [] && s[Common(s, t)..] == [""] && t[Common(s, t)..] == []
    ensures |s| == |t| + 1 && PrintedSegments(s, t) == Ups(1) + t[|t| - 1..] && s[..|s| - 2] == t[..|t| - 1]
  {
    assert s[..|t|] == t;
    assert Ups(1) == [".."] && t[|t| - 1..] == [t[|t| - 1]];
  }

  lemma SameRecovers(source: Url, target: Url)
    requires SameSite(source, target) && Segments(source.path) == Segments(target.path)
    ensures Resolve(Components(source), Parse(RelativeTo(source, target))) == Components(target) <==> Recovers(source, target)
  {
    var t := Segments(target.path);
    PathIs(target.path);
    CommonIs(t, t, |t|);
    var k := |t| - 1;
    assert [t[k]] == t[k..] == Ups(0) + t[k..];
    var f := DownPath(t[k..], target);
    if Reads(f) {
      RecoverBy(source, target, 0, k);
    } else {
      Printed(source, target);
      assert RelativeTo(source, target) == f + Tail(target);
      if f == "" {
        PathIs(source.path);
        SameByEmptyReference(source, target);
      } else {
        ShortReference(source, target, t[k..], k);
        FailBy(source, target, f);
      }
    }
  }

  lemma SameByEmptyReference(source: Url, target: Url)
    requires SameSite(source, target) && source.path == target.path && RelativeTo(source, target) == "" + Tail(target) && target.params == ""
    ensures Resolve(Components(source), Parse(RelativeTo(source, target))) == Components(target) <==>
      source.params == "" && (target.query != "" || source.query == "")
  {
    ParseReadable("", target);
  }
  // ---- the references which do not: the path they lead to has another length ----

  function PathLength(source: Url, f: string, target: Url): nat
  {
    |Resolve(Components(source), Parse(f + Tail(target))).path|
  }

  lemma FailBy(source: Url, target: Url, f: string)
    requires RelativeTo(source, target) == f + Tail(target) && PathLength(source, f, target) != |Components(target).path|
    ensures Resolve(Components(source), Parse(RelativeTo(source, target))) != Components(target)
  {
  }

  lemma EmptyReference(source: Url, target: Url)
    requires SameSite(source, target)
    ensures PathLength(source, "", target) == |source.path| + |Suffix(";", source.params)|
  {
    ParseReadable("", target);
  }

  lemma Lengths(a: seq<string>, b: seq<string>)
    ensures |Slashed(a + b)| == |Slashed(a)| + |Slashed(b)|
    ensures b != [] ==> |Join(b, "/")| == |Slashed(b)| - 1
    ensures |b| == 1 ==> |Slashed(b)| == 1 + |b[0]|
  {
    SlashedConcat(a, b);
    if b != [] { SlashedJoin(b); }
    if |b| == 1 { SlashedOne(b[0]); assert b == [b[0]]; }
  }

  // A reference which goes down from less than the common directory cannot name the target.
  lemma ShortReference(source: Url, target: Url, down: seq<string>, k: nat)
    requires SameSite(source, target) && k < |Segments(target.path)| && down == Segments(target.path)[k..]
    requires !Reads(DownPath(down, target)) && DownPath(down, target) != ""
    ensures PathLength(source, DownPath(down, target), target) < |Components(target).path|
  {
    var t, f := Segments(target.path), DownPath(down, target);
    TargetPath(target, k);
    DownPathIsText(down, target);
    Lengths(t[..k], down);
    ShortPath(Components(source), f, target);
  }

  // The target is below the source.
  lemma BelowFails(source: Url, target: Url)
    requires SameSite(source, target)
    requires var s, t := Segments(source.path), Segments(target.path); s[Common(s, t)..] == [] && t[Common(s, t)..] != []
    ensures Resolve(Components(source), Parse(RelativeTo(source, target))) != Components(target)
  {
    var s, t := Segments(source.path), Segments(target.path);
    var down := t[|s|..];
    BelowSegments(s, t);
    Printed(source, target);
    BelowByLength(source, target, s, t, down);
    FailBy(source, target, DownPath(down, target));
  }

  lemma BelowParts(s: seq<string>, t: seq<string>, c: nat)
    requires c <= |s| && c <= |t| && s[..c] == t[..c] && s[c..] == [] && t[c..] != []
    ensures c == |s| < |t| && t == s + t[|s|..]
  {
    assert |s[c..]| == |s| - c && |t[c..]| == |t| - c;
    assert s == s[..c] && t == t[..c] + t[c..];
  }

  lemma BelowSegments(s: seq<string>, t: seq<string>)
    requires s[Common(s, t)..] == [] && t[Common(s, t)..] != []
    ensures |s| < |t| && t == s + t[|s|..] && PrintedSegments(s, t) == t[|s|..]
  {
    BelowParts(s, t, Common(s, t));
    assert Ups(0) + t[|s|..] == t[|s|..];
  }

  lemma BelowByLength(source: Url, target: Url, s: seq<string>, t: seq<string>, down: seq<string>)
    requires SameSite(source, target) && s == Segments(source.path) && t == Segments(target.path)
    requires t == s + down && down != []
    ensures PathLength(source, DownPath(down, target), target) != |Components(target).path|
  {
    var f := DownPath(down, target);
    PathIs(source.path);
    TargetPath(target, |s|);
    assert t[..|s|] == s && t[|s|..] == down;
    Lengths(s, down);
    if f == "" {
      EmptyReference(source, target);
    } else if Reads(f) {
      BelowReads(source, target, down);
      Lengths(s[..|s| - 1], down);
      SlashedLast(s);
    } else {
      ShortReference(source, target, down, |s|);
    }
  }

  lemma BelowReads(source: Url, target: Url, down: seq<string>)
    requires SameSite(source, target) && Segments(source.path) != [] && Reads(DownPath(down, target))
    requires down != [] && Plain(down) && NoDots(down) && forall s :: s in down ==> Without(s, "?#")
    ensures
      var s := Segments(source.path);
      PathLength(source, DownPath(down, target), target) == |Slashed(s[..|s| - 1] + down)| + |Suffix(";", target.params)|
  {
    assert Ups(0) + down == down;
    ClimbAndResolve(source, target, 0, down);
  }

  lemma OneSegmentLeft(source: Url, target: Url)
    requires SameSite(source, target) && !Recovers(source, target)
    requires var s, t := Segments(source.path), Segments(target.path); |s[Common(s, t)..]| == 1 && t[Common(s, t)..] != []
    ensures Resolve(Components(source), Parse(RelativeTo(source, target))) != Components(target)
  {
    var s, t := Segments(source.path), Segments(target.path);
    var c := Common(s, t);
    var f := DownPath(t[c..], target);
    Printed(source, target);
    assert Ups(0) + t[c..] == t[c..];
    if f == "" {
      OneSegmentEmpty(source, target, s, t, c);
    } else {
      ShortReference(source, target, t[c..], c);
    }
    FailBy(source, target, f);
  }

  // Only the last segment of the source is removed.
  lemma OneSegmentEmpty(source: Url, target: Url, s: seq<string>, t: seq<string>, c: nat)
    requires SameSite(source, target) && s == Segments(source.path) && t == Segments(target.path)
    requires c == |s| - 1 && c < |t| && s[..c] == t[..c] && s[c] != t[c] && DownPath(t[c..], target) == ""
    ensures PathLength(source, "", target) != |Components(target).path|
  {
    OneSegmentLength(source, target, s, t, c);
    EmptyReference(source, target);
  }

  lemma OneSegmentLength(source: Url, target: Url, s: seq<string>, t: seq<string>, c: nat)
    requires SameSite(source, target) && s == Segments(source.path) && t == Segments(target.path)
    requires c == |s| - 1 && c < |t| && s[..c] == t[..c] && s[c] != t[c] && DownPath(t[c..], target) == ""
    ensures |source.path| + |Suffix(";", source.params)| != |Components(target).path|
  {
    PathSize(source);
    PathSize(target);
    DownIsEmpty(t[c..], target);
    assert |t[c..]| == |t| - c && t[c..][0] == t[c];
    SlashedLast(s);
    SlashedLast(t);
  }

  lemma DownIsEmpty(down: seq<string>, u: Url)
    requires down != [] && DownPath(down, u) == ""
    ensures down == [""] && u.params == ""
  {
    JoinLength(down);
    assert down == [down[0]];
  }

  lemma {:induction false} JoinLength(segs: seq<string>)
    requires segs != []
    ensures |Join(segs, "/")| >= |segs| - 1
  {
    if |segs| > 1 {
      JoinLength(segs[1..]);
    }
  }

  // The source is below the target, and is not its empty name.
  lemma AboveFails(source: Url, target: Url)
    requires SameSite(source, target)
    requires var s, t := Segments(source.path), Segments(target.path);
      s[Common(s, t)..] != [] && s[Common(s, t)..] != [""] && t[Common(s, t)..] == []
    ensures Resolve(Components(source), Parse(RelativeTo(source, target))) != Components(target)
  {
    var s, t := Segments(source.path), Segments(target.path);
    var c := Common(s, t);
    var n := |s| - c;
    Printed(source, target);
    assert s[..c] == t && Ups(n - 1) + [] == Ups(n - 1);
    if n == 1 {
      assert s[c..] == [s[c]];
      AboveByOne(source, target, s, t);
    } else {
      AboveByMore(source, target, s, t, n);
    }
    FailBy(source, target, DownPath(Ups(n - 1), target));
  }

  lemma AboveByOne(source: Url, target: Url, s: seq<string>, t: seq<string>)
    requires SameSite(source, target) && s == Segments(source.path) && t == Segments(target.path)
    requires |s| == |t| + 1 && s[..|t|] == t && s[|t|] != ""
    ensures PathLength(source, DownPath(Ups(0), target), target) != |Components(target).path|
  {
    NoStep(target);
    if target.params == "" {
      NoParams(source, target, s, t);
    } else {
      ParamsOnly(source, target, s, t);
    }
  }

  // The reference is empty.
  lemma NoParams(source: Url, target: Url, s: seq<string>, t: seq<string>)
    requires SameSite(source, target) && s == Segments(source.path) && t == Segments(target.path)
    requires |s| == |t| + 1 && s[..|t|] == t && s[|t|] != "" && target.params == ""
    ensures PathLength(source, Suffix(";", target.params), target) != |Components(target).path|
  {
    NoParamsLength(source, target, s, t);
    EmptyReference(source, target);
  }

  lemma NoParamsLength(source: Url, target: Url, s: seq<string>, t: seq<string>)
    requires SameSite(source, target) && s == Segments(source.path) && t == Segments(target.path)
    requires |s| == |t| + 1 && s[..|t|] == t && s[|t|] != "" && target.params == ""
    ensures |source.path| + |Suffix(";", source.params)| != |Components(target).path|
  {
    PathSize(source);
    PathSize(target);
    SlashedLast(s);
  }

  lemma PathSize(u: Url)
    requires Clean(u)
    ensures |u.path| == |Slashed(Segments(u.path))|
  {
    PathIs(u.path);
  }

  lemma NoStep(u: Url)
    ensures DownPath(Ups(0), u) == Suffix(";", u.params) && DownPath([""], u) == Suffix(";", u.params)
  {
    assert Ups(0) == [];
    assert "" + Suffix(";", u.params) == Suffix(";", u.params);
  }

  // The reference is only made of the params of the target.
  lemma ParamsOnly(source: Url, target: Url, s: seq<string>, t: seq<string>)
    requires SameSite(source, target) && s == Segments(source.path) && t == Segments(target.path)
    requires |s| == |t| + 1 && s[..|t|] == t && target.params != ""
    ensures PathLength(source, Suffix(";", target.params), target) != |Components(target).path|
  {
    var p := Suffix(";", target.params);
    PathIs(source.path);
    PathIs(target.path);
    NoStep(target);
    if HasScheme(p) {
      DownPathIsText([""], target);
      ShortPath(Components(source), p, target);
    } else {
      BelowReads(source, target, [""]);
      Lengths(t, [""]);
    }
  }

  lemma AboveByMore(source: Url, target: Url, s: seq<string>, t: seq<string>, n: nat)
    requires SameSite(source, target) && s == Segments(source.path) && t == Segments(target.path)
    requires n >= 2 && |s| == |t| + n && s[..|t|] == t
    ensures PathLength(source, DownPath(Ups(n - 1), target), target) != |Components(target).path|
  {
    var segs := Ups(n - 2) + [".."];
    assert segs == Ups(n - 1);
    DownPathIsText(segs, target);
    if HasScheme(DownPath(segs, target)) {
      AboveByScheme(source, target, t, n);
    } else {
      AboveByDots(source, target, s, t, n, DownPath(segs, target));
    }
  }

  lemma AboveByScheme(source: Url, target: Url, t: seq<string>, n: nat)
    requires SameSite(source, target) && t == Segments(target.path) && n >= 2
    requires var f := DownPath(Ups(n - 2) + [".."], target); HasScheme(f) && Without(f, "?#")
    ensures PathLength(source, DownPath(Ups(n - 2) + [".."], target), target) != |Components(target).path|
  {
    var f := DownPath(Ups(n - 2) + [".."], target);
    if n > 2 { UpReads(n - 2, [".."], target); }
    assert Ups(0) + [".."] == [".."];
    assert f == ".." + Suffix(";", target.params);
    PathIs(target.path);
    ShortPath(Components(source), f, target);
  }

  lemma AboveByDots(source: Url, target: Url, s: seq<string>, t: seq<string>, n: nat, f: string)
    requires SameSite(source, target) && s == Segments(source.path) && t == Segments(target.path)
    requires n >= 2 && |s| == |t| + n && s[..|t|] == t
    requires f == DownPath(Ups(n - 2) + [".."], target) && !HasScheme(f) && Without(f, "?#")
    ensures PathLength(source, f, target) > |Components(target).path|
  {
    AboveLength(source, target, s, t, n);
    DotsLength(source, target, s, n, f);
  }

  lemma DotsLength(source: Url, target: Url, s: seq<string>, n: nat, f: string)
    requires SameSite(source, target) && n >= 2 && s == Segments(source.path) && s != []
    requires f == DownPath(Ups(n - 2) + [".."], target) && !HasScheme(f) && Without(f, "?#")
    ensures PathLength(source, f, target) ==
      |Slashed(Normal(s[..|s| - 1] + WithParams(Ups(n - 2) + [".."], Suffix(";", target.params)), []))|
  {
    DotsFirst(n, target);
    MergedLength(source, f, target);
    MergedClimb(source, target, n - 2, [".."]);
  }

  lemma AboveLength(source: Url, target: Url, s: seq<string>, t: seq<string>, n: nat)
    requires SameSite(source, target) && s == Segments(source.path) && t == Segments(target.path)
    requires n >= 2 && |s| == |t| + n && s[..|t|] == t
    ensures |Slashed(Normal(s[..|s| - 1] + WithParams(Ups(n - 2) + [".."], Suffix(";", target.params)), []))| > |Components(target).path|
  {
    PathIs(source.path);
    PathIs(target.path);
    AboveSegments(s, t, n, Suffix(";", target.params));
  }

  lemma MergedLength(source: Url, f: string, target: Url)
    requires Without(f, "?#") && Without(target.query, "#") && !HasScheme(f) && f != "" && f[0] != '/'
    ensures PathLength(source, f, target) == |RemoveDots(Merge(Components(source), f), "")|
  {
    ParseReadable(f, target);
  }

  // Where the ".." lead: to the directory itself, or below it when the params hide the last one.
  lemma AboveSegments(s: seq<string>, t: seq<string>, n: nat, p: string)
    requires n >= 2 && |s| == |t| + n && s[..|t|] == t && NoDots(s) && Plain(s)
    ensures |Slashed(Normal(s[..|s| - 1] + WithParams(Ups(n - 2) + [".."], p), []))| > |Slashed(t)| + |p|
  {
    WithParamsAfter(Ups(n - 2), [".."], p);
    assert WithParams([".."], p) == [".." + p];
    if p == "" {
      assert ".." + p == "..";
      UpToTheTarget(s, t, n);
    } else {
      BelowTheTarget(s, t, n, ".." + p);
    }
  }

  lemma UpToTheTarget(s: seq<string>, t: seq<string>, n: nat)
    requires n >= 2 && |s| == |t| + n && s[..|t|] == t && NoDots(s)
    ensures |Slashed(Normal(s[..|s| - 1] + (Ups(n - 2) + [".."]), []))| == |Slashed(t)| + 1
  {
    var dir := s[..|s| - 1];
    assert forall x :: x in dir ==> x in s;
    NormalPlain(dir, Ups(n - 2) + [".."], []);
    assert [] + dir == dir;
    NormalUps(n - 2, [".."], dir);
    var stack := dir[..|t| + 1];
    assert stack == dir[..|dir| - (n - 2)];
    assert stack[..|stack| - 1] == t;
    assert Normal([".."], stack) == t + [""];
    Lengths(t, [""]);
  }

  lemma BelowTheTarget(s: seq<string>, t: seq<string>, n: nat, last: string)
    requires n >= 2 && |s| == |t| + n && s[..|t|] == t && NoDots(s) && |last| > 2
    ensures |Slashed(Normal(s[..|s| - 1] + (Ups(n - 2) + [last]), []))| >= |Slashed(t)| + |last|
  {
    var dir, x := s[..|s| - 1], s[|t|];
    assert forall y :: y in dir ==> y in s;
    Climb(dir, n - 2, [last]);
    assert dir[..|dir| - (n - 2)] == t + [x];
    Lengths(t + [x], [last]);
    Lengths(t, [x]);
  }

  lemma DotsFirst(n: nat, u: Url)
    requires n >= 2
    ensures var f := DownPath(Ups(n - 2) + [".."], u); f != "" && f[0] == '.'
  {
    var segs := Ups(n - 2) + [".."];
    assert segs[0] == "..";
    assert Join(segs, "/")[0] == '.';
  }

  // The main result: resolving the reference gives the target exactly when Recovers holds.
  lemma ResolvesIffRecovers(source: Url, target: Url)
    requires Clean(source) && Clean(target)
    ensures Resolve(Components(source), Parse(RelativeTo(source, target))) == Components(target) <==> Recovers(source, target)
  {
    var s, t := Segments(source.path), Segments(target.path);
    var c := Common(s, t);
    var up, down := s[c..], t[c..];
    PathIs(target.path);
    if source.scheme != target.scheme || source.netloc != target.netloc {
      OtherSite(source, target);
    } else if up == [] && down == [] {
      assert s == s[..c] == t[..c] == t;
      SameRecovers(source, target);
    } else if up == [""] && down == [] {
      DirectoryRecovers(source, target);
    } else if up == [] {
      BelowFails(source, target);
    } else if down == [] {
      AboveFails(source, target);
    } else if Recovers(source, target) {
      SiblingsRecover(source, target);
    } else {
      OneSegmentLeft(source, target);
    }
  }

  // The target of another site is returned whole.
  lemma OtherSite(source: Url, target: Url)
    requires Clean(target)
    ensures Resolve(Components(source), Parse(UnparseAbsolute(target))) == Components(target)
  {
    var full := target.path + Suffix(";", target.params);
    Associative(full, Suffix("?", target.query), Suffix("#", target.fragment));
    Associative(target.scheme + "://", target.netloc, full + Tail(target));
    ParseAbsolute(target, full + Tail(target));
    FullPathIsText(target);
    ParseTail(Some(target.scheme), Some(target.netloc), full, target);
    PathIs(target.path);
    var t := Segments(target.path);
    WithParamsIs(t, target);
    PlainPathUnchanged(WithParams(t, Suffix(";", target.params)));
  }

  lemma ParseAbsolute(u: Url, rest: string)
    requires Clean(u) && rest != "" && rest[0] == '/'
    ensures Parse(u.scheme + "://" + (u.netloc + rest)) == ParsePath(Some(u.scheme), Some(u.netloc), rest)
  {
    var after := u.netloc + rest;
    var s := u.scheme + "://" + after;
    Associative(u.scheme, "://", after);
    SpanAt(u.scheme, "://" + after, ":/?#");
    assert s[..|u.scheme|] == u.scheme;
    assert s[|u.scheme| + 1..] == "//" + after;
    ParseNetloc(u, rest);
  }

  lemma ParseNetloc(u: Url, rest: string)
    requires Clean(u) && rest != "" && rest[0] == '/'
    ensures ParseAuthority(Some(u.scheme), "//" + (u.netloc + rest)) == ParsePath(Some(u.scheme), Some(u.netloc), rest)
  {
    var after := u.netloc + rest;
    assert ("//" + after)[2..] == after;
    SpanAt(u.netloc, rest, "/?#");
    assert after[..|u.netloc|] == u.netloc && after[|u.netloc|..] == rest;
  }

  lemma FullPathIsText(u: Url)
    requires Clean(u)
    ensures Without(u.path + Suffix(";", u.params), "?#")
  {
    var f := u.path + Suffix(";", u.params);
    assert forall k :: 0 <= k < |f| ==> f[k] == if k < |u.path| then u.path[k] else Suffix(";", u.params)[k - |u.path|];
  }

  // From http://foo/c to http://foo/a:b the reference is "a:b", which is read as the scheme "a".
  lemma ColonFails(source: Url, target: Url)
    requires SameSite(source, target)
    requires source.path == "/" + "c" && target.path == "/" + "a:b" && target.params == ""
    ensures Resolve(Components(source), Parse(RelativeTo(source, target))) != Components(target)
  {
    OneSegment("c");
    OneSegment("a:b");
    SpanAt("a", ":b", ":/?#");
    assert "a" + ":b" == "a:b";
    SiblingFails(source, target, "c", "a:b");
  }

  lemma SiblingFails(source: Url, target: Url, x: string, y: string)
    requires SameSite(source, target) && target.params == ""
    requires Segments(source.path) == [x] && Segments(target.path) == [y] && x != y && !Reads(y)
    ensures Resolve(Components(source), Parse(RelativeTo(source, target))) != Components(target)
  {
    assert [x][0..] == [x] && [y][0..] == [y];
    assert Common([x], [y]) == 0;
    assert DownPath([y], target) == y;
    ResolvesIffRecovers(source, target);
  }

  lemma OneSegment(name: string)
    requires '/' !in name
    ensures Segments("/" + name) == [name]
  {
    SplitAt("", '/', name);
    assert "/" + name == "" + ['/'] + name;
  }
}
