/** Experimental/relative_url.py: the reference from one URL to another. */
module RelativeUrl {
  import opened Text
  import opened Collections
  import opened UriReference

  // What urlparse returns; an absent params, query or fragment is an empty string.
  datatype Url = Url(scheme: string, netloc: string, path: string, params: string, query: string, fragment: string)

  function Suffix(mark: string, s: string): string { if s == "" then "" else mark + s }

  // urlunparse(["", "", path, params, query, fragment])
  function UnparseRelative(path: string, u: Url): string
  {
    path + Suffix(";", u.params) + Suffix("?", u.query) + Suffix("#", u.fragment)
  }

  function UnparseAbsolute(u: Url): string { u.scheme + "://" + u.netloc + UnparseRelative(u.path, u) }

  // The components of a URL for the RFC, where the params belong to the path.
  function Components(u: Url): Parts
  {
    Parts(Some(u.scheme), Some(u.netloc), u.path + Suffix(";", u.params), Defined(u.query), Defined(u.fragment))
  }

  function Defined(s: string): Option<string> { if s == "" then None else Some(s) }

  // ---- the list computed by the program ----

  function Common(a: seq<string>, b: seq<string>): (k: nat)
    ensures k <= |a| && k <= |b| && a[..k] == b[..k]
    ensures k < |a| && k < |b| ==> a[k] != b[k]
  {
    if a == [] || b == [] || a[0] != b[0] then 0
    else
      var k := Common(a[1..], b[1..]);
      assert a[..k + 1] == [a[0]] + a[1..][..k] && b[..k + 1] == [b[0]] + b[1..][..k];
      1 + k
  }

  // Up, then down; with the two special cases, which need the last of the parts which were removed.
  function Steps(up: seq<string>, down: seq<string>, last: string): seq<string>
  {
    if up == [] && down == [] then [last]
    else if up == [""] && down == [] then ["..", last]
    else Ups(if up == [] then 0 else |up| - 1) + down
  }

  // What is left of both lists once the equal parts are removed.
  function RelativeSegments(su: seq<string>, tu: seq<string>): seq<string>
    requires su != [] && tu != []
  {
    var k := Common(su, tu);
    Steps(su[k..], tu[k..], if k > 0 then tu[k - 1] else "")
  }

  function RelativeTo(source: Url, target: Url): string
  {
    if source.scheme != target.scheme || source.netloc != target.netloc then UnparseAbsolute(target)
    else UnparseRelative(Join(RelativeSegments(Split(source.path, '/'), Split(target.path, '/')), "/"), target)
  }

  function Reversed<T>(s: seq<T>): (r: seq<T>)
    ensures |r| == |s|
    ensures forall i :: 0 <= i < |s| ==> r[i] == s[|s| - 1 - i]
  {
    seq(|s|, i requires 0 <= i < |s| => s[|s| - 1 - i])
  }

  lemma CommonIs(a: seq<string>, b: seq<string>, k: nat)
    requires k <= |a| && k <= |b| && a[..k] == b[..k]
    requires k < |a| && k < |b| ==> a[k] != b[k]
    ensures Common(a, b) == k
  {
    var c := Common(a, b);
    assert forall i :: 0 <= i < k ==> a[i] == a[..k][i] && b[i] == b[..k][i];
    assert forall i :: 0 <= i < c ==> a[i] == a[..c][i] && b[i] == b[..c][i];
  }

  // Both lists are reversed, so that the equal parts are popped.
  method PopEqual(s: seq<string>, t: seq<string>) returns (su: seq<string>, tu: seq<string>, lastPop: string)
    ensures su == Reversed(s[Common(s, t)..]) && tu == Reversed(t[Common(s, t)..])
    ensures Common(s, t) > 0 ==> lastPop == t[Common(s, t) - 1]
  {
    su, tu, lastPop := Reversed(s), Reversed(t), "";
    ghost var k := 0;
    while |su| > 0 && |tu| > 0 && su[|su| - 1] == tu[|tu| - 1]
      invariant k <= |s| && k <= |t| && s[..k] == t[..k]
      invariant su == Reversed(s[k..]) && tu == Reversed(t[k..])
      invariant k > 0 ==> lastPop == t[k - 1]
      decreases |su|
    {
      lastPop := tu[|tu| - 1];
      su, tu := su[..|su| - 1], tu[..|tu| - 1];
      assert s[..k + 1] == s[..k] + [s[k]] && t[..k + 1] == t[..k] + [t[k]];
      k := k + 1;
    }
    assert k < |s| ==> s[k] == s[k..][0] == su[|su| - 1];
    assert k < |t| ==> t[k] == t[k..][0] == tu[|tu| - 1];
    CommonIs(s, t, k);
  }

  // The special cases, then one ".." a segment of the source but the last one.
  method Ascend(su0: seq<string>, tu0: seq<string>, lastPop: string) returns (segments: seq<string>)
    ensures segments == Steps(Reversed(su0), Reversed(tu0), lastPop)
  {
    var su, tu := su0, tu0;
    if |su| == 0 && |tu| == 0 {
      tu := tu + [lastPop];
    }
    if |su| == 1 && su[0] == "" && |tu| == 0 {
      su := su + [lastPop];
      tu := tu + [lastPop];
    }
    tu := Reversed(tu);
    var relative := [];
    var i := 0;
    while i < |su| - 1
      invariant 0 <= i <= if su == [] then 0 else |su| - 1
      invariant relative == Ups(i)
    {
      relative := relative + [".."];
      i := i + 1;
    }
    segments := relative + tu;
    assert su0 != [] ==> Reversed(su0)[0] == su0[|su0| - 1];
  }

  // The program, on the components which urlparse gives.
  method Relative(source: Url, target: Url) returns (rel: string)
    ensures rel == RelativeTo(source, target)
  {
    if source.scheme != target.scheme || source.netloc != target.netloc {
      return UnparseAbsolute(target);
    }
    var s, t := Split(source.path, '/'), Split(target.path, '/');
    var su, tu, lastPop := PopEqual(s, t);
    var segments := Ascend(su, tu, lastPop);
    ReversedTwice(s[Common(s, t)..]);
    ReversedTwice(t[Common(s, t)..]);
    rel := UnparseRelative(Join(segments, "/"), target);
  }

  lemma ReversedTwice<T>(s: seq<T>)
    ensures Reversed(Reversed(s)) == s
  {
  }
}
