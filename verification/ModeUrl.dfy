/** lib_util: the display mode in the URL of a script, and the ampersands of URLs in SVG documents. */
module ModeUrl {
  import opened Text

  const MODE := "mode="

  // ---- the regular expression (.*)([?&])mode=[^&]*(.*) ----

  // The start of a mode argument.
  predicate ModeAt(s: string, i: nat)
  {
    i + |MODE| < |s| && s[i] in "?&" && s[i + 1..i + 1 + |MODE|] == MODE
  }

  ghost predicate HasMode(s: string) { exists i: nat :: ModeAt(s, i) }

  // The last start before n, or n if there is none.
  function LastMode(s: string, n: nat): (i: nat)
    ensures i <= n
    ensures i < n ==> ModeAt(s, i)
    ensures forall k :: 0 <= k < n && (i == n || i < k) ==> !ModeAt(s, k)
  {
    LastBefore(s, n, n)
  }

  function LastBefore(s: string, k: nat, n: nat): (i: nat)
    requires k <= n
    requires forall j :: k <= j < n ==> !ModeAt(s, j)
    ensures i <= n
    ensures i < n ==> ModeAt(s, i)
    ensures forall j :: 0 <= j < n && (i == n || i < j) ==> !ModeAt(s, j)
  {
    if k == 0 then n else if ModeAt(s, k - 1) then k - 1 else LastBefore(s, k - 1, n)
  }

  datatype Match = NoMatch | Match(before: string, sep: char, value: string, after: string)

  // The first group is greedy, and like the last one it does not go over the end of a line.
  function MatchMode(s: string): Match
  {
    var n := IndexOf(s, '\n');
    var i := LastMode(s, n);
    if i == n then NoMatch
    else
      var rest := s[i + 1 + |MODE|..];
      var value := rest[..IndexOf(rest, '&')];
      var after := rest[|value|..];
      Match(s[..i], s[i], value, after[..IndexOf(after, '\n')])
  }

  // ---- the functions on URLs ----

  function ConcatenateCgi(url: string, keyvalpair: string): string
  {
    url + (if '?' in url then "&" else "?") + keyvalpair
  }

  function AnyUriModed(script: string, otherMode: string): string
  {
    match MatchMode(script)
    case NoMatch => if otherMode == "" then script else ConcatenateCgi(script, MODE + otherMode)
    case Match(before, sep, value, after) =>
      if otherMode != "" then before + [sep] + MODE + otherMode + after
      else if sep == '?' && after != "" then before + "?" + after[1..]
      else before + after
  }

  function GetModeFromUrl(url: string): string
  {
    match MatchMode(url) case NoMatch => "" case Match(before, sep, value, after) => value
  }

  // ---- where the mode is ----

  ghost predicate OneLine(s: string) { '\n' !in s }

  // A mode which can be written in an URL and read again.
  ghost predicate GoodMode(m: string) { '&' !in m && !HasMode(m) }

  // The parts of an URL around its last mode.
  ghost predicate IsMatch(s: string, before: string, sep: char, value: string, after: string)
  {
    && s == before + [sep] + (MODE + (value + after))
    && sep in "?&"
    && '&' !in value && !HasMode(value)
    && (after != "" ==> after[0] == '&') && !HasMode(after)
  }

  lemma ModeAtEnd(p: string, s: string, i: nat)
    requires |p| <= i
    ensures ModeAt(p + s, i) <==> ModeAt(s, i - |p|)
  {
    var t := p + s;
    if i + |MODE| < |t| {
      assert t[i + 1..i + 1 + |MODE|] == s[i - |p| + 1..i - |p| + 1 + |MODE|];
    }
  }

  lemma NoModeInMODE(s: string, i: nat)
    requires i < |MODE|
    ensures !ModeAt(MODE + s, i)
  {
    assert (MODE + s)[i] == MODE[i];
  }

  // No argument starts in a value and ends after it.
  lemma NoModeInValue(value: string, after: string, i: nat)
    requires '&' !in value && !HasMode(value) && (after != "" ==> after[0] == '&') && !HasMode(after)
    ensures !ModeAt(value + after, i)
  {
    var t := value + after;
    if i >= |value| {
      ModeAtEnd(value, after, i);
    } else if i + |MODE| < |value| {
      assert value[i + 1..i + 1 + |MODE|] == t[i + 1..i + 1 + |MODE|];
      assert !ModeAt(value, i);
    } else if i + |MODE| < |t| {
      assert t[|value|] == after[0];
      assert t[i + 1..i + 1 + |MODE|][|value| - i - 1] == t[|value|];
      assert '&' !in MODE;
    }
  }

  lemma MatchIsLast(s: string, before: string, sep: char, value: string, after: string, i: nat)
    requires IsMatch(s, before, sep, value, after) && |before| <= i
    ensures ModeAt(s, i) <==> i == |before|
  {
    var t := value + after;
    Associative(before, [sep], MODE + t);
    ModeAtEnd(before, [sep] + (MODE + t), i);
    var j := i - |before|;
    if j == 0 {
      var u := [sep] + (MODE + t);
      assert u[1..1 + |MODE|] == MODE;
    } else {
      ModeAtEnd([sep], MODE + t, j);
      if j - 1 < |MODE| {
        NoModeInMODE(t, j - 1);
      } else {
        ModeAtEnd(MODE, t, j - 1);
        NoModeInValue(value, after, j - 1 - |MODE|);
      }
    }
  }

  lemma IndexOfNone(s: string, c: char)
    requires c !in s
    ensures IndexOf(s, c) == |s|
  {
  }

  lemma ValueEnds(value: string, after: string)
    requires '&' !in value && (after != "" ==> after[0] == '&')
    ensures IndexOf(value + after, '&') == |value|
  {
    if after == "" {
      assert value + after == value;
    } else {
      assert value + after == value + ['&'] + after[1..];
      IndexOfAt(value, '&', after[1..]);
    }
  }

  lemma MatchParts(before: string, sep: char, value: string, after: string)
    ensures
      var s := before + [sep] + (MODE + (value + after));
      && s[..|before|] == before && s[|before|] == sep && s[|before| + 1 + |MODE|..] == value + after
      && (value + after)[..|value|] == value && (value + after)[|value|..] == after
  {
    var t := value + after;
    var s := before + [sep] + (MODE + t);
    assert s[|before| + 1..] == MODE + t;
    assert s[|before| + 1 + |MODE|..] == s[|before| + 1..][|MODE|..];
  }

  // The parts are found.
  lemma MatchIs(s: string, before: string, sep: char, value: string, after: string)
    requires OneLine(s) && IsMatch(s, before, sep, value, after)
    ensures MatchMode(s) == Match(before, sep, value, after)
  {
    MatchModeIs(s);
    LastModeIs(s, before, sep, value, after);
    MatchParts(before, sep, value, after);
    ValueEnds(value, after);
  }

  lemma LastModeIs(s: string, before: string, sep: char, value: string, after: string)
    requires IsMatch(s, before, sep, value, after)
    ensures |before| < |s| && LastMode(s, |s|) == |before|
  {
    MatchIsLast(s, before, sep, value, after, |before|);
    MatchIsLast(s, before, sep, value, after, LastMode(s, |s|));
  }

  lemma NoModeAfter(s: string, i: nat)
    requires i + 1 + |MODE| <= |s| && (forall k :: i < k < |s| ==> !ModeAt(s, k))
    ensures !HasMode(s[i + 1 + |MODE|..])
  {
    var j := i + 1 + |MODE|;
    var rest := s[j..];
    forall k: nat ensures !ModeAt(rest, k) {
      assert s == s[..j] + rest;
      ModeAtEnd(s[..j], rest, j + k);
    }
  }

  lemma NoModeInParts(rest: string, n: nat)
    requires !HasMode(rest) && n <= |rest|
    ensures !HasMode(rest[..n]) && !HasMode(rest[n..])
  {
    var a, b := rest[..n], rest[n..];
    forall k: nat ensures !ModeAt(a, k) {
      if k + |MODE| < n {
        assert a[k + 1..k + 1 + |MODE|] == rest[k + 1..k + 1 + |MODE|];
        assert !ModeAt(rest, k);
      }
    }
    forall k: nat ensures !ModeAt(b, k) {
      assert rest == a + b;
      ModeAtEnd(a, b, n + k);
    }
  }

  lemma PartsOf(s: string, i: nat, n: nat)
    requires ModeAt(s, i) && n <= |s[i + 1 + |MODE|..]|
    ensures
      var rest := s[i + 1 + |MODE|..];
      s == s[..i] + [s[i]] + (MODE + (rest[..n] + rest[n..]))
  {
    var rest := s[i + 1 + |MODE|..];
    assert rest[..n] + rest[n..] == rest;
    assert s == s[..i] + [s[i]] + s[i + 1..];
    assert s[i + 1..] == s[i + 1..i + 1 + |MODE|] + rest;
  }

  // Any URL with a mode has such parts.
  lemma MatchIsFound(s: string)
    requires OneLine(s)
    ensures MatchMode(s).NoMatch? <==> !HasMode(s)
    ensures MatchMode(s).Match? ==>
      var Match(before, sep, value, after) := MatchMode(s);
      IsMatch(s, before, sep, value, after)
  {
    MatchModeIs(s);
    var i := LastMode(s, |s|);
    if i < |s| {
      var rest := s[i + 1 + |MODE|..];
      var n := IndexOf(rest, '&');
      NoModeAfter(s, i);
      NoModeInParts(rest, n);
      PartsOf(s, i, n);
    }
  }

  lemma MatchModeIs(s: string)
    requires OneLine(s)
    ensures
      var i := LastMode(s, |s|);
      MatchMode(s) ==
        if i == |s| then NoMatch
        else
          var rest := s[i + 1 + |MODE|..];
          var n := IndexOf(rest, '&');
          Match(s[..i], s[i], rest[..n], rest[n..])
  {
    IndexOfNone(s, '\n');
    var i := LastMode(s, |s|);
    if i < |s| {
      var rest := s[i + 1 + |MODE|..];
      var after := rest[IndexOf(rest, '&')..];
      assert forall c :: c in after ==> c in s;
      IndexOfNone(after, '\n');
      assert after[..|after|] == after;
    }
  }

  // ---- the laws ----

  lemma OneLineParts(before: string, sep: char, value: string, after: string)
    ensures OneLine(before + [sep] + (MODE + (value + after))) <==> OneLine(before) && sep != '\n' && OneLine(value) && OneLine(after)
  {
    var s := before + [sep] + (MODE + (value + after));
    assert forall c :: c in s <==> c in before || c == sep || c in MODE || c in value || c in after;
  }

  // The parts of an URL where a mode was just written.
  lemma SetParts(u: string, m: string)
    requires OneLine(u) && m != ""
    ensures
      var parts := MatchMode(u);
      if parts.Match? then AnyUriModed(u, m) == parts.before + [parts.sep] + (MODE + (m + parts.after))
      else AnyUriModed(u, m) == u + [if '?' in u then '&' else '?'] + (MODE + (m + ""))
  {
    var parts := MatchMode(u);
    if parts.Match? {
      Associative(parts.before + [parts.sep], MODE, m);
      Associative(parts.before + [parts.sep], MODE + m, parts.after);
      Associative(MODE, m, parts.after);
    } else {
      assert m + "" == m;
    }
  }

  lemma SetIsMatch(u: string, m: string)
    requires OneLine(u) && OneLine(m) && m != "" && GoodMode(m)
    ensures OneLine(AnyUriModed(u, m))
    ensures
      var parts := MatchMode(u);
      MatchMode(AnyUriModed(u, m)) ==
        if parts.Match? then parts.(value := m) else Match(u, if '?' in u then '&' else '?', m, "")
  {
    var parts, s := MatchMode(u), AnyUriModed(u, m);
    SetParts(u, m);
    MatchIsFound(u);
    if parts.Match? {
      OneLineParts(parts.before, parts.sep, parts.value, parts.after);
      OneLineParts(parts.before, parts.sep, m, parts.after);
      MatchIs(s, parts.before, parts.sep, m, parts.after);
    } else {
      var sep := if '?' in u then '&' else '?';
      OneLineParts(u, sep, m, "");
      MatchIs(s, u, sep, m, "");
    }
  }

  // Setting a mode, then reading it.
  lemma GetAfterSet(u: string, m: string)
    requires OneLine(u) && OneLine(m) && m != ""
    ensures GetModeFromUrl(AnyUriModed(u, m)) == m <==> GoodMode(m)
  {
    var s := AnyUriModed(u, m);
    if GoodMode(m) {
      SetIsMatch(u, m);
    }
    SetIsOneLine(u, m);
    MatchIsFound(s);
  }

  lemma SetIsOneLine(u: string, m: string)
    requires OneLine(u) && OneLine(m) && m != ""
    ensures OneLine(AnyUriModed(u, m))
  {
    var parts := MatchMode(u);
    SetParts(u, m);
    MatchIsFound(u);
    if parts.Match? {
      OneLineParts(parts.before, parts.sep, parts.value, parts.after);
      OneLineParts(parts.before, parts.sep, m, parts.after);
    } else {
      OneLineParts(u, if '?' in u then '&' else '?', m, "");
    }
  }

  // The last mode which is set wins, also when the mode is then removed.
  lemma SetAfterSet(u: string, m1: string, m2: string)
    requires OneLine(u) && OneLine(m1) && m1 != "" && GoodMode(m1)
    ensures AnyUriModed(AnyUriModed(u, m1), m2) == AnyUriModed(u, m2)
  {
    SetIsMatch(u, m1);
    SetParts(u, m1);
    var s := AnyUriModed(u, m1);
    if m2 != "" {
      SetParts(u, m2);
      SetParts(s, m2);
    } else {
      assert u + "" == u;
    }
  }

  // Setting the mode which is already there: only an empty one is lost.
  lemma SetAfterGet(u: string)
    requires OneLine(u)
    ensures AnyUriModed(u, GetModeFromUrl(u)) == u <==> !(HasMode(u) && GetModeFromUrl(u) == "")
  {
    MatchIsFound(u);
    var m := GetModeFromUrl(u);
    if HasMode(u) {
      if m != "" {
        SetParts(u, m);
      }
    }
  }

  // Removing the mode takes its argument away, and shows the one before if there is one.
  lemma Removed(u: string)
    requires OneLine(u)
    ensures HasMode(AnyUriModed(u, "")) <==> MatchMode(u).Match? && HasMode(MatchMode(u).before)
  {
    MatchIsFound(u);
    var parts := MatchMode(u);
    if parts.Match? {
      RemovedParts(parts.before, parts.sep, parts.after);
    }
  }

  lemma RemovedParts(before: string, sep: char, after: string)
    requires (after != "" ==> after[0] == '&') && !HasMode(after)
    ensures HasMode(if sep == '?' && after != "" then before + "?" + after[1..] else before + after) <==> HasMode(before)
  {
    if sep == '?' && after != "" {
      Associative(before, "?", after[1..]);
      NoModeUnderMark(after);
      NoModeAtJoin(before, ['?'] + after[1..]);
    } else {
      NoModeAtJoin(before, after);
    }
  }

  lemma NoModeUnderMark(after: string)
    requires after != "" && after[0] == '&' && !HasMode(after)
    ensures !HasMode(['?'] + after[1..])
  {
    var t := ['?'] + after[1..];
    forall k: nat ensures !ModeAt(t, k) {
      if k + |MODE| < |t| {
        assert t[k + 1..k + 1 + |MODE|] == after[k + 1..k + 1 + |MODE|];
        assert !ModeAt(after, k);
      }
    }
  }

  // No argument starts before a delimiter and ends after it.
  lemma NoModeAtJoin(before: string, after: string)
    requires (after != "" ==> after[0] in "?&") && !HasMode(after)
    ensures HasMode(before + after) <==> HasMode(before)
  {
    var t := before + after;
    forall k: nat ensures ModeAt(t, k) <==> ModeAt(before, k) {
      if k >= |before| {
        ModeAtEnd(before, after, k);
      } else if k + |MODE| < |before| {
        assert before[k + 1..k + 1 + |MODE|] == t[k + 1..k + 1 + |MODE|];
      } else if k + |MODE| < |t| {
        assert t[|before|] == after[0];
        assert t[k + 1..k + 1 + |MODE|][|before| - k - 1] == t[|before|];
        assert '&' !in MODE && '?' !in MODE;
      }
    }
  }

  // ---- what happens to the arguments ----

  ghost predicate IsArgument(a: string) { Without(a, "?&\n") }

  predicate IsModeArgument(a: string) { MODE <= a }

  function Query(args: seq<string>): string { if args == [] then "" else "?" + Join(args, "&") }

  // Arguments after another one.
  function More(args: seq<string>): string { if args == [] then "" else "&" + Join(args, "&") }

  lemma WithoutMode(a: string)
    requires IsArgument(a)
    ensures '&' !in a && '?' !in a && '\n' !in a && !HasMode(a)
  {
    forall k: nat ensures !ModeAt(a, k) {
      assert k < |a| ==> a[k] !in "?&\n";
    }
  }

  lemma MoreIs(args: seq<string>)
    requires args != []
    ensures More(args) == "&" + (args[0] + More(args[1..]))
    ensures Join(args, "&") == args[0] + More(args[1..])
  {
    if |args| == 1 {
      assert args[0] + "" == args[0];
    } else {
      Associative(args[0], "&", Join(args[1..], "&"));
    }
  }

  lemma MorePrefix(a: string, after: string)
    requires IsArgument(a) && (after != "" ==> after[0] == '&')
    ensures MODE <= a + after <==> MODE <= a
  {
    var s := a + after;
    assert '&' !in MODE;
    assert after != "" ==> s[|a|] == '&';
    assert forall k :: 0 <= k < |MODE| && MODE <= s ==> s[k] == MODE[k];
  }

  // The other arguments have no mode.
  lemma {:induction false} MoreHasNoMode(args: seq<string>)
    requires forall a :: a in args ==> IsArgument(a) && !IsModeArgument(a)
    ensures !HasMode(More(args))
  {
    if args != [] {
      var a, after := args[0], More(args[1..]);
      assert a in args && forall b :: b in args[1..] ==> b in args;
      MoreHasNoMode(args[1..]);
      MoreIs(args);
      WithoutMode(a);
      MorePrefix(a, after);
      NoModeAfterSeparator('&', a, after);
    }
  }

  lemma NoModeAfterSeparator(sep: char, a: string, after: string)
    requires '&' !in a && !HasMode(a) && (after != "" ==> after[0] == '&') && !HasMode(after) && !(MODE <= a + after)
    ensures !HasMode([sep] + (a + after))
  {
    var s := [sep] + (a + after);
    forall k: nat ensures !ModeAt(s, k) {
      if k == 0 {
        assert s[1..] == a + after;
        assert |MODE| < |s| ==> s[1..1 + |MODE|] == (a + after)[..|MODE|];
      } else {
        ModeAtEnd([sep], a + after, k);
        NoModeInValue(a, after, k - 1);
      }
    }
  }

  function Separator(args: seq<string>): char { if args == [] then '?' else '&' }

  lemma {:induction false} JoinSplits(first: seq<string>, a: string, rest: seq<string>)
    ensures Query(first + [a] + rest) == Query(first) + [Separator(first)] + (a + More(rest))
  {
    if first == [] {
      assert first + [a] + rest == [a] + rest;
      MoreIs([a] + rest);
      assert ([a] + rest)[1..] == rest;
    } else {
      JoinAppends(first, [a] + rest);
      MoreIs([a] + rest);
      assert ([a] + rest)[1..] == rest && first + [a] + rest == first + ([a] + rest);
      Associative("?", Join(first, "&"), More([a] + rest));
      Associative("?" + Join(first, "&"), "&", a + More(rest));
    }
  }

  lemma {:induction false} JoinAppends(first: seq<string>, rest: seq<string>)
    requires first != []
    ensures Join(first + rest, "&") == Join(first, "&") + More(rest)
  {
    if |first| == 1 {
      MoreIs(first + rest);
      assert (first + rest)[1..] == rest;
    } else {
      assert (first + rest)[1..] == first[1..] + rest;
      JoinAppends(first[1..], rest);
      MoreIs(first + rest);
      Associative(first[0] + "&", Join(first[1..], "&"), More(rest));
      Associative(first[0], "&", Join(first[1..] + rest, "&"));
    }
  }

  ghost predicate IsQuery(path: string, args: seq<string>)
  {
    IsArgument(path) && forall a :: a in args ==> IsArgument(a)
  }

  ghost predicate NoMode(args: seq<string>) { forall a :: a in args ==> !IsModeArgument(a) }

  lemma QueryHasNoMode(path: string, args: seq<string>)
    requires IsQuery(path, args) && NoMode(args)
    ensures !HasMode(path + Query(args))
  {
    WithoutMode(path);
    if args == [] {
      assert path + "" == path;
    } else {
      var a, after := args[0], More(args[1..]);
      assert a in args && forall b :: b in args[1..] ==> b in args;
      MoreHasNoMode(args[1..]);
      MoreIs(args);
      WithoutMode(a);
      MorePrefix(a, after);
      NoModeAfterSeparator('?', a, after);
      NoModeAtJoin(path, Query(args));
    }
  }

  lemma {:induction false} QueryChars(args: seq<string>)
    requires forall a :: a in args ==> IsArgument(a)
    ensures OneLine(More(args)) && OneLine(Query(args)) && '?' !in More(args)
  {
    if args != [] {
      assert args[0] in args && forall b :: b in args[1..] ==> b in args;
      MoreIs(args);
      QueryChars(args[1..]);
      WithoutMode(args[0]);
      assert forall c :: c in More(args) <==> c == '&' || c in args[0] || c in More(args[1..]);
      assert forall c :: c in Query(args) <==> c == '?' || c in args[0] || c in More(args[1..]);
    }
  }

  // With no mode among the arguments, it is added after them.
  lemma AddArgument(path: string, args: seq<string>, m: string)
    requires IsQuery(path, args) && NoMode(args)
    ensures AnyUriModed(path + Query(args), m) == path + Query(if m == "" then args else args + [MODE + m])
    ensures GetModeFromUrl(path + Query(args)) == ""
  {
    var u := path + Query(args);
    QueryHasNoMode(path, args);
    QueryIsOneLine(path, args);
    MatchIsFound(u);
    if m != "" {
      QuestionMark(path, args);
      assert args + [MODE + m] + [] == args + [MODE + m] && MODE + m + "" == MODE + m;
      JoinSplits(args, MODE + m, []);
      Associative(path, Query(args) + [Separator(args)], MODE + m);
      Associative(path, Query(args), [Separator(args)]);
    }
  }

  lemma QueryIsOneLine(path: string, args: seq<string>)
    requires IsQuery(path, args)
    ensures OneLine(path + Query(args))
  {
    QueryChars(args);
    assert forall c :: c in path + Query(args) <==> c in path || c in Query(args);
  }

  lemma QuestionMark(path: string, args: seq<string>)
    requires IsQuery(path, args)
    ensures '?' in path + Query(args) <==> args != []
  {
    WithoutMode(path);
    var u := path + Query(args);
    assert args != [] ==> u[|path|] == '?';
    assert args == [] ==> u == path;
  }

  // An URL around its last mode argument.
  lemma QueryMatch(path: string, first: seq<string>, value: string, rest: seq<string>)
    requires IsQuery(path, first + [MODE + value] + rest) && NoMode(rest)
    ensures MatchMode(path + Query(first + [MODE + value] + rest)) == Match(path + Query(first), Separator(first), value, More(rest))
  {
    var args := first + [MODE + value] + rest;
    assert MODE + value in args && forall a :: a in rest ==> a in args;
    QueryIsOneLine(path, args);
    MoreHasNoMode(rest);
    ValueHasNoMode(value);
    QueryParts(path, first, value, rest);
    MatchIs(path + Query(args), path + Query(first), Separator(first), value, More(rest));
  }

  lemma ValueHasNoMode(value: string)
    requires IsArgument(MODE + value)
    ensures '&' !in value && !HasMode(value)
  {
    assert forall k :: 0 <= k < |value| ==> value[k] == (MODE + value)[|MODE| + k];
    WithoutMode(value);
  }

  lemma QueryParts(path: string, first: seq<string>, value: string, rest: seq<string>)
    ensures path + Query(first + [MODE + value] + rest) == path + Query(first) + [Separator(first)] + (MODE + (value + More(rest)))
  {
    JoinSplits(first, MODE + value, rest);
    Associative(MODE, value, More(rest));
    Associative(path, Query(first) + [Separator(first)], MODE + value + More(rest));
    Associative(path, Query(first), [Separator(first)]);
  }

  // The last mode argument is read, replaced in its place, or removed; the other arguments stay as they are.
  lemma SetArgument(path: string, first: seq<string>, value: string, rest: seq<string>, m: string)
    requires IsQuery(path, first + [MODE + value] + rest) && NoMode(rest)
    ensures
      var u := path + Query(first + [MODE + value] + rest);
      && GetModeFromUrl(u) == value
      && AnyUriModed(u, m) == path + Query(if m == "" then first + rest else first + [MODE + m] + rest)
  {
    var u := path + Query(first + [MODE + value] + rest);
    QueryMatch(path, first, value, rest);
    if m != "" {
      QueryIsOneLine(path, first + [MODE + value] + rest);
      ReplaceArgument(u, path, first, value, rest, m);
    } else {
      RemoveArgument(u, path, first, value, rest);
    }
  }

  lemma ReplaceArgument(u: string, path: string, first: seq<string>, value: string, rest: seq<string>, m: string)
    requires OneLine(u) && m != "" && MatchMode(u) == Match(path + Query(first), Separator(first), value, More(rest))
    ensures AnyUriModed(u, m) == path + Query(first + [MODE + m] + rest)
  {
    SetParts(u, m);
    QueryParts(path, first, m, rest);
  }

  lemma RemoveArgument(u: string, path: string, first: seq<string>, value: string, rest: seq<string>)
    requires MatchMode(u) == Match(path + Query(first), Separator(first), value, More(rest))
    ensures AnyUriModed(u, "") == path + Query(first + rest)
  {
    JoinWithout(path, first, rest);
  }

  lemma JoinWithout(path: string, first: seq<string>, rest: seq<string>)
    ensures
      path + Query(first + rest) ==
        if Separator(first) == '?' && More(rest) != "" then path + Query(first) + "?" + More(rest)[1..] else path + Query(first) + More(rest)
  {
    if first == [] {
      assert first + rest == rest && path + "" == path;
      if rest != [] {
        assert More(rest)[1..] == Join(rest, "&");
        Associative(path, "?", Join(rest, "&"));
      }
    } else {
      JoinAppends(first, rest);
      Associative("?", Join(first, "&"), More(rest));
      Associative(path, Query(first), More(rest));
    }
  }

  lemma ModeAtIs(s: string, i: nat)
    requires i + |MODE| < |s|
    ensures ModeAt(s, i) <==> s[i] in "?&" && forall j :: 0 <= j < |MODE| ==> s[i + 1 + j] == MODE[j]
  {
    var part := s[i + 1..i + 1 + |MODE|];
    assert forall j :: 0 <= j < |MODE| ==> part[j] == s[i + 1 + j];
    assert part == MODE <==> forall j :: 0 <= j < |MODE| ==> part[j] == MODE[j];
  }

  lemma SameFirstLine(s: string, t: string, n: nat, k: nat)
    requires k < n < |s| && n < |t| && (forall j :: 0 <= j <= n ==> s[j] == t[j]) && s[n] == '\n'
    ensures ModeAt(s, k) <==> ModeAt(t, k)
  {
    if k + |MODE| < n {
      ModeAtIs(s, k);
      ModeAtIs(t, k);
    } else {
      NotOverEndOfLine(s, n, k);
      NotOverEndOfLine(t, n, k);
    }
  }

  lemma NotOverEndOfLine(s: string, n: nat, k: nat)
    requires k < n < |s| && n <= k + |MODE| && s[n] == '\n'
    ensures !ModeAt(s, k)
  {
    if k + |MODE| < |s| {
      ModeAtIs(s, k);
      assert s[k + 1 + (n - k - 1)] == '\n' && MODE[n - k - 1] != '\n';
    }
  }

  // The expression stops at the end of the first line: a mode which is added after it is not found.
  lemma ModeOnNextLineIsHidden(u: string, m: string)
    requires !OneLine(u) && MatchMode(u).NoMatch? && m != ""
    ensures GetModeFromUrl(AnyUriModed(u, m)) == ""
  {
    var s := AnyUriModed(u, m);
    var n := IndexOf(u, '\n');
    Associative(u, if '?' in u then "&" else "?", MODE + m);
    FirstLineStays(u, (if '?' in u then "&" else "?") + (MODE + m));
    assert forall j :: 0 <= j <= n ==> u[j] == u[..n + 1][j] && s[j] == s[..n + 1][j];
    forall k | 0 <= k < n ensures !ModeAt(s, k) {
      assert !ModeAt(u, k);
      SameFirstLine(u, s, n, k);
    }
  }

  lemma {:induction false} FirstLineStays(u: string, added: string)
    requires !OneLine(u)
    ensures
      var n := IndexOf(u, '\n');
      n < |u| && IndexOf(u + added, '\n') == n && u[..n + 1] == (u + added)[..n + 1]
  {
    var s := u + added;
    if u[0] != '\n' {
      assert s[0] == u[0] && s[1..] == u[1..] + added;
      FirstLineStays(u[1..], added);
    }
  }

  // ---- ampersands ----

  // str.replace: the occurrences from the left, one after the other.
  function Replace(s: string, part: string, instead: string): string
    requires part != ""
  {
    if s == "" then ""
    else if part <= s then instead + Replace(s[|part|..], part, instead)
    else [s[0]] + Replace(s[1..], part, instead)
  }

  function UrlToSvg(url: string): string { Replace(url, "&", "&amp;amp;") }

  function UrlNoAmp(url: string): string { Replace(Replace(url, "&amp;", "&"), "&amp;", "&") }

  lemma {:induction false} ReplaceSkips(a: string, b: string)
    requires '&' !in a
    ensures Replace(a + b, "&amp;", "&") == a + Replace(b, "&amp;", "&")
  {
    if a == "" {
      assert a + b == b;
    } else {
      var s := a + b;
      assert s[0] == a[0] && s[1..] == a[1..] + b;
      ReplaceSkips(a[1..], b);
    }
  }

  // One level of escaping is undone by one pass.
  lemma ReplaceEscaped(more: string, b: string)
    requires '&' !in more
    ensures Replace("&amp;" + (more + b), "&amp;", "&") == "&" + (more + Replace(b, "&amp;", "&"))
  {
    var s := "&amp;" + (more + b);
    assert "&amp;" <= s && s[5..] == more + b;
    ReplaceSkips(more, b);
  }

  lemma {:induction false} FirstPass(u: string)
    ensures Replace(Replace(u, "&", "&amp;amp;"), "&amp;", "&") == Replace(u, "&", "&amp;")
  {
    if u != "" {
      var others := Replace(u[1..], "&", "&amp;amp;");
      FirstPass(u[1..]);
      if u[0] == '&' {
        ReplaceEscaped("amp;", others);
        assert "&amp;" + "amp;" == "&amp;amp;" && "&" + "amp;" == "&amp;";
        Associative("&amp;", "amp;", others);
        Associative("&", "amp;", Replace(u[1..], "&", "&amp;"));
      } else {
        ReplaceSkips([u[0]], others);
      }
    }
  }

  lemma {:induction false} SecondPass(u: string)
    ensures Replace(Replace(u, "&", "&amp;"), "&amp;", "&") == u
  {
    if u != "" {
      var others := Replace(u[1..], "&", "&amp;");
      SecondPass(u[1..]);
      if u[0] == '&' {
        ReplaceEscaped("", others);
        assert "" + others == others && "" + u[1..] == u[1..];
      } else {
        ReplaceSkips([u[0]], others);
      }
    }
  }

  // The two levels are undone, whatever entities the URL had.
  lemma NoAmpOfSvg(u: string)
    ensures UrlNoAmp(UrlToSvg(u)) == u
  {
    FirstPass(u);
    SecondPass(u);
  }
}
