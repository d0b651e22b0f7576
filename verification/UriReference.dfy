/** Parsing and resolving URI references: RFC 3986, Appendix B and section 5.2. */
module UriReference {
  import opened Text
  import opened Collections

  datatype Parts = Parts(scheme: Option<string>, authority: Option<string>, path: string, query: Option<string>, fragment: Option<string>)

  // ---- Appendix B ----

  function ParseFragment(s: string): Option<string>
  {
    if s == "" then None else Some(s[1..])
  }

  function ParseQuery(s: string): (Option<string>, Option<string>)
  {
    if s != "" && s[0] == '?' then
      var i := Span(s[1..], "#"); (Some(s[1..][..i]), ParseFragment(s[1..][i..]))
    else (None, ParseFragment(s))
  }

  function ParsePath(scheme: Option<string>, authority: Option<string>, s: string): Parts
  {
    var i := Span(s, "?#");
    var (query, fragment) := ParseQuery(s[i..]);
    Parts(scheme, authority, s[..i], query, fragment)
  }

  function ParseAuthority(scheme: Option<string>, s: string): Parts
  {
    if "//" <= s then
      var i := Span(s[2..], "/?#"); ParsePath(scheme, Some(s[2..][..i]), s[2..][i..])
    else ParsePath(scheme, None, s)
  }

  function Parse(s: string): Parts
  {
    var i := Span(s, ":/?#");
    if 0 < i < |s| && s[i] == ':' then ParseAuthority(Some(s[..i]), s[i + 1..]) else ParseAuthority(None, s)
  }

  // ---- section 5.2.4 ----

  function RemoveLast(out: string): (r: string)
    ensures |r| <= |out|
  {
    var i := RFind(out, '/');
    if i < 0 then "" else out[..i]
  }

  // The length of the first segment, with its initial "/" if there is one.
  function FirstSegment(s: string): (i: nat)
    requires s != ""
    ensures 0 < i <= |s|
  {
    1 + Span(s[1..], "/")
  }

  function RemoveDots(input: string, output: string): (r: string)
    ensures |r| <= |input| + |output|
    decreases |input|
  {
    if input == "" then output
    else if "../" <= input then RemoveDots(input[3..], output)
    else if "./" <= input then RemoveDots(input[2..], output)
    else if "/./" <= input then RemoveDots(input[2..], output)
    else if input == "/." then RemoveDots("/", output)
    else if "/../" <= input then RemoveDots(input[3..], RemoveLast(output))
    else if input == "/.." then RemoveDots("/", RemoveLast(output))
    else if input == "." || input == ".." then output
    else var i := FirstSegment(input); RemoveDots(input[i..], output + input[..i])
  }

  // ---- sections 5.2.2 and 5.2.3 ----

  function Merge(base: Parts, path: string): string
  {
    if base.authority.Some? && base.path == "" then "/" + path
    else
      var i := RFind(base.path, '/');
      if i < 0 then path else base.path[..i + 1] + path
  }

  function Resolve(base: Parts, r: Parts): Parts
  {
    if r.scheme.Some? then r.(path := RemoveDots(r.path, ""))
    else if r.authority.Some? then r.(scheme := base.scheme, path := RemoveDots(r.path, ""))
    else if r.path == "" then
      Parts(base.scheme, base.authority, base.path, if r.query.Some? then r.query else base.query, r.fragment)
    else
      var path := if r.path[0] == '/' then r.path else Merge(base, r.path);
      Parts(base.scheme, base.authority, RemoveDots(path, ""), r.query, r.fragment)
  }

  // ---- paths as segments ----

  function Slashed(segs: seq<string>): string
  {
    if segs == [] then "" else "/" + segs[0] + Slashed(segs[1..])
  }

  ghost predicate Plain(segs: seq<string>) { forall s :: s in segs ==> '/' !in s }

  ghost predicate NoDots(segs: seq<string>) { forall s :: s in segs ==> s != "." && s != ".." }

  lemma {:induction false} SlashedConcat(a: seq<string>, b: seq<string>)
    ensures Slashed(a + b) == Slashed(a) + Slashed(b)
  {
    if a == [] {
      assert a + b == b;
    } else {
      assert (a + b)[1..] == a[1..] + b;
      SlashedConcat(a[1..], b);
    }
  }

  lemma {:induction false} SlashedJoin(segs: seq<string>)
    requires segs != []
    ensures Slashed(segs) == "/" + Join(segs, "/")
  {
    if |segs| > 1 {
      SlashedJoin(segs[1..]);
      assert Slashed(segs) == "/" + segs[0] + "/" + Join(segs[1..], "/");
    } else {
      assert segs[1..] == [];
    }
  }

  lemma SlashedMore(init: seq<string>, last: string)
    ensures Slashed(init + [last]) == Slashed(init) + "/" + last
  {
    SlashedConcat(init, [last]);
    SlashedOne(last);
    Associative(Slashed(init), "/", last);
  }

  lemma SlashedLast(segs: seq<string>)
    requires segs != []
    ensures Slashed(segs) == Slashed(segs[..|segs| - 1]) + "/" + segs[|segs| - 1]
  {
    SlashedMore(segs[..|segs| - 1], segs[|segs| - 1]);
    LastIsAppended(segs);
  }

  lemma LastIsAppended(segs: seq<string>)
    requires segs != []
    ensures segs == segs[..|segs| - 1] + [segs[|segs| - 1]]
  {
  }

  lemma SlashedOne(seg: string)
    ensures Slashed([seg]) == "/" + seg
  {
    assert [seg][1..] == [];
  }

  lemma RemoveLastSegment(segs: seq<string>)
    requires Plain(segs)
    ensures RemoveLast(Slashed(segs)) == Slashed(if segs == [] then [] else segs[..|segs| - 1])
  {
    if segs != [] {
      SlashedLast(segs);
      RFindAt(Slashed(segs[..|segs| - 1]), '/', segs[|segs| - 1]);
    }
  }

  // What RemoveDots does to segments: a stack, where the last dot segment leaves an empty one.
  function Normal(segs: seq<string>, stack: seq<string>): seq<string>
  {
    if segs == [] then stack
    else if segs[0] == "." then
      if |segs| == 1 then stack + [""] else Normal(segs[1..], stack)
    else if segs[0] == ".." then
      var popped := if stack == [] then [] else stack[..|stack| - 1];
      if |segs| == 1 then popped + [""] else Normal(segs[1..], popped)
    else Normal(segs[1..], stack + [segs[0]])
  }

  lemma {:induction false} RemoveDotsSegments(segs: seq<string>, stack: seq<string>)
    requires Plain(segs) && Plain(stack)
    ensures RemoveDots(Slashed(segs), Slashed(stack)) == Slashed(Normal(segs, stack))
  {
    if segs != [] {
      var input, rest, popped := Slashed(segs), Slashed(segs[1..]), if stack == [] then [] else stack[..|stack| - 1];
      assert input == "/" + segs[0] + rest;
      assert Plain(segs[1..]) && Plain(popped);
      if segs[0] == "." {
        DotStep(segs, stack);
        if |segs| > 1 { RemoveDotsSegments(segs[1..], stack); }
      } else if segs[0] == ".." {
        DotDotStep(segs, stack);
        if |segs| > 1 { RemoveDotsSegments(segs[1..], popped); }
      } else {
        PlainStep(segs, stack);
        RemoveDotsSegments(segs[1..], stack + [segs[0]]);
      }
    }
  }

  lemma RemoveDotsOfSlash(output: string)
    ensures RemoveDots("/", output) == output + "/"
  {
    assert FirstSegment("/") == 1;
    assert "/"[1..] == "";
  }

  lemma DotStep(segs: seq<string>, stack: seq<string>)
    requires Plain(segs) && segs != [] && segs[0] == "."
    ensures RemoveDots(Slashed(segs), Slashed(stack)) ==
      if |segs| == 1 then Slashed(stack + [""]) else RemoveDots(Slashed(segs[1..]), Slashed(stack))
  {
    var rest := Slashed(segs[1..]);
    if |segs| == 1 {
      assert Slashed(segs) == "/.";
      RemoveDotsOfSlash(Slashed(stack));
      SlashedConcat(stack, [""]);
      assert Slashed([""]) == "/";
    } else {
      assert rest[0] == '/';
      assert Slashed(segs) == "/." + rest;
      assert "/./" <= Slashed(segs) && Slashed(segs)[2..] == rest;
    }
  }

  lemma RemoveDotsUp(rest: string, output: string)
    requires rest != "" && rest[0] == '/'
    ensures RemoveDots("/.." + rest, output) == RemoveDots(rest, RemoveLast(output))
  {
    var input := "/.." + rest;
    assert "/../" <= input && input[3..] == rest;
    assert input[1] == '.' && input[2] == '.';
  }

  lemma DotDotStep(segs: seq<string>, stack: seq<string>)
    requires Plain(segs) && Plain(stack) && segs != [] && segs[0] == ".."
    ensures
      var popped := if stack == [] then [] else stack[..|stack| - 1];
      RemoveDots(Slashed(segs), Slashed(stack)) ==
        if |segs| == 1 then Slashed(popped + [""]) else RemoveDots(Slashed(segs[1..]), Slashed(popped))
  {
    var rest, popped := Slashed(segs[1..]), if stack == [] then [] else stack[..|stack| - 1];
    RemoveLastSegment(stack);
    if |segs| == 1 {
      assert segs == [".."];
      LastUp(Slashed(stack), popped);
    } else {
      RemoveDotsUp(rest, Slashed(stack));
      assert Slashed(segs) == "/.." + rest;
    }
  }

  lemma FinalUp(output: string)
    ensures RemoveDots("/..", output) == RemoveDots("/", RemoveLast(output))
  {
    var input := "/..";
    assert |input| == 3 && input[0] == '/' && input[1] == '.' && input[2] == '.';
  }

  lemma LastUp(output: string, popped: seq<string>)
    requires RemoveLast(output) == Slashed(popped)
    ensures RemoveDots(Slashed([".."]), output) == Slashed(popped + [""])
  {
    SlashedOne("..");
    FinalUp(output);
    RemoveDotsOfSlash(Slashed(popped));
    SlashedConcat(popped, [""]);
    SlashedOne("");
  }

  lemma PlainStep(segs: seq<string>, stack: seq<string>)
    requires Plain(segs) && segs != [] && segs[0] != "." && segs[0] != ".."
    ensures RemoveDots(Slashed(segs), Slashed(stack)) == RemoveDots(Slashed(segs[1..]), Slashed(stack + [segs[0]]))
  {
    var input, seg, rest := Slashed(segs), segs[0], Slashed(segs[1..]);
    assert seg in segs;
    assert input == "/" + seg + rest;
    assert input[1..] == seg + rest;
    assert forall k :: 0 <= k < |seg| ==> seg[k] in seg;
    assert rest != "" ==> rest[0] == '/';
    SpanAt(seg, rest, "/");
    assert input[..1 + |seg|] == "/" + seg && input[1 + |seg|..] == rest;
    SlashedConcat(stack, [seg]);
    SlashedOne(seg);
    NotADotPrefix(seg, rest);
    assert FirstSegment(input) == 1 + |seg|;
  }

  lemma NotADotPrefix(seg: string, rest: string)
    requires '/' !in seg
    requires rest == "" || rest[0] == '/'
    ensures var input := "/" + seg + rest;
      && !("../" <= input) && !("./" <= input) && input != "." && input != ".."
      && ("/./" <= input || input == "/." ==> seg == ".")
      && ("/../" <= input || input == "/.." ==> seg == "..")
  {
    var input := "/" + seg + rest;
    assert forall k :: 0 <= k < |seg| ==> input[1 + k] == seg[k] && seg[k] in seg;
    assert rest != "" ==> input[1 + |seg|] == '/';
    assert input[0] == '/';
    if "/./" <= input {
      assert input[1] == '.' && input[2] == '/';
      assert |seg| == 1;
    }
    if "/../" <= input {
      assert input[1] == '.' && input[2] == '.' && input[3] == '/';
      assert |seg| == 2;
    }
  }

  // Segments without dots are pushed; ".." followed by something pops one.

  lemma {:induction false} NormalPlain(a: seq<string>, b: seq<string>, stack: seq<string>)
    requires NoDots(a)
    ensures Normal(a + b, stack) == Normal(b, stack + a)
  {
    if a == [] {
      assert a + b == b && stack + a == stack;
    } else {
      assert (a + b)[1..] == a[1..] + b;
      assert a[0] in a && forall s :: s in a[1..] ==> s in a;
      assert stack + a == (stack + [a[0]]) + a[1..];
      NormalPlain(a[1..], b, stack + [a[0]]);
    }
  }

  function Ups(n: nat): seq<string> { seq(n, _ => "..") }

  lemma {:induction false} NormalUps(n: nat, b: seq<string>, stack: seq<string>)
    requires n <= |stack| && b != []
    ensures Normal(Ups(n) + b, stack) == Normal(b, stack[..|stack| - n])
  {
    if n == 0 {
      assert Ups(0) + b == b && stack[..|stack|] == stack;
    } else {
      assert (Ups(n) + b)[1..] == Ups(n - 1) + b;
      var popped := stack[..|stack| - 1];
      assert popped[..|popped| - (n - 1)] == stack[..|stack| - n];
      NormalUps(n - 1, b, popped);
    }
  }

  lemma NormalOfPlain(a: seq<string>)
    requires NoDots(a)
    ensures Normal(a, []) == a
  {
    NormalPlain(a, [], []);
    assert a + [] == a && [] + a == a;
  }

  lemma PlainPathUnchanged(a: seq<string>)
    requires NoDots(a) && Plain(a)
    ensures RemoveDots(Slashed(a), "") == Slashed(a)
  {
    RemoveDotsSegments(a, []);
    NormalOfPlain(a);
  }
}
