/** Strings as the Python code uses them: decimal rendering, splitting, joining,
    replacing a character and the order of `<`. */
module Text {

  // "%d" of a natural number

  function Digit(d: nat): char
    requires d < 10
  {
    "0123456789"[d]
  }

  function Decimal(n: nat): (s: string)
    ensures |s| > 0
    ensures forall i :: 0 <= i < |s| ==> '0' <= s[i] <= '9'
  {
    if n < 10 then [Digit(n)] else Decimal(n / 10) + [Digit(n % 10)]
  }

  lemma DigitInjective(d: nat, e: nat)
    requires d < 10 && e < 10
    requires Digit(d) == Digit(e)
    ensures d == e
  {
    var digits := "0123456789";
    assert forall i, j :: 0 <= i < j < 10 ==> digits[i] != digits[j];
  }

  lemma DecimalParts(n: nat)
    ensures var s := Decimal(n);
      && s[|s| - 1] == Digit(n % 10)
      && (n < 10 <==> |s| == 1)
      && (n >= 10 ==> Decimal(n / 10) == s[..|s| - 1])
  {
    var s := Decimal(n);
    if n >= 10 {
      assert s == Decimal(n / 10) + [Digit(n % 10)];
    }
  }

  lemma {:induction false} DecimalInjective(m: nat, n: nat)
    requires Decimal(m) == Decimal(n)
    ensures m == n
  {
    DecimalParts(m);
    DecimalParts(n);
    DigitInjective(m % 10, n % 10);
    if m >= 10 {
      DecimalInjective(m / 10, n / 10);
    }
  }

  lemma Associative(a: string, b: string, c: string)
    ensures a + (b + c) == a + b + c
  {
  }

  ghost predicate Without(s: string, chars: string) { forall k :: 0 <= k < |s| ==> s[k] !in chars }

  predicate EndsWith(s: string, end: string) { |end| <= |s| && s[|s| - |end|..] == end }

  // The length of the longest prefix without any of these characters.

  function Span(s: string, stops: string): (i: nat)
    ensures i <= |s|
    ensures forall k :: 0 <= k < i ==> s[k] !in stops
    ensures i < |s| ==> s[i] in stops
  {
    if s == "" || s[0] in stops then 0 else 1 + Span(s[1..], stops)
  }

  lemma {:induction false} SpanAt(a: string, b: string, stops: string)
    requires Without(a, stops) && (b != "" ==> b[0] in stops)
    ensures Span(a + b, stops) == |a|
  {
    var s := a + b;
    if a == "" {
      assert s == b;
    } else {
      assert s[0] == a[0] && s[1..] == a[1..] + b;
      SpanAt(a[1..], b, stops);
    }
  }

  // str.strip()

  predicate IsSpace(c: char) { c == ' ' || c == '\t' || c == '\n' || c == '\r' || c == '\U{000b}' || c == '\U{000c}' }

  function Strip(s: string): string
  {
    if s == "" then ""
    else if IsSpace(s[0]) then Strip(s[1..])
    else if IsSpace(s[|s| - 1]) then Strip(s[..|s| - 1])
    else s
  }

  // str.split(c) for one character, and the join that undoes it

  function IndexOf(s: string, c: char): (i: nat)
    ensures i <= |s|
    ensures c !in s[..i]
    ensures i < |s| ==> s[i] == c
    ensures i == |s| <==> c !in s
  {
    if s == "" || s[0] == c then 0 else 1 + IndexOf(s[1..], c)
  }

  function Split(s: string, c: char): (parts: seq<string>)
    ensures |parts| > 0
    ensures forall p :: p in parts ==> c !in p
    decreases |s|
  {
    var i := IndexOf(s, c);
    if i == |s| then [s] else [s[..i]] + Split(s[i + 1..], c)
  }

  function Join(parts: seq<string>, sep: string): string
  {
    if |parts| == 0 then "" else if |parts| == 1 then parts[0] else parts[0] + sep + Join(parts[1..], sep)
  }

  lemma IndexOfAt(a: string, c: char, b: string)
    requires c !in a
    ensures IndexOf(a + [c] + b, c) == |a|
  {
    var s := a + [c] + b;
    var i := IndexOf(s, c);
    assert forall j :: 0 <= j < |a| ==> s[j] == a[j] && a[j] in a;
    assert s[|a|] == c;
    assert forall j :: 0 <= j < i ==> s[j] == s[..i][j] && s[..i][j] in s[..i];
  }

  // str.rfind(c)

  function RFind(s: string, c: char): (i: int)
    ensures -1 <= i < |s|
    ensures i >= 0 ==> s[i] == c
    ensures forall k :: i < k < |s| ==> s[k] != c
  {
    if s == "" then -1 else if s[|s| - 1] == c then |s| - 1 else RFind(s[..|s| - 1], c)
  }

  lemma {:induction false} RFindAt(a: string, c: char, b: string)
    requires c !in b
    ensures RFind(a + [c] + b, c) == |a|
  {
    var s, n := a + [c] + b, |b| - 1;
    if b == "" {
      assert s == a + [c];
    } else {
      assert s[|s| - 1] == b[n] && b[n] in b && s[..|s| - 1] == a + [c] + b[..n];
      assert forall x :: x in b[..n] ==> x in b;
      RFindAt(a, c, b[..n]);
    }
  }

  lemma {:induction false} Cut(a: string, c: char, b: string)
    requires c !in a
    ensures
      var s := a + ([c] + b);
      IndexOf(s, c) == |a| && s[..|a|] == a && s[|a| + 1..] == b
  {
    var s := a + ([c] + b);
    if a == "" {
      assert s == [c] + b;
    } else {
      assert s[0] == a[0] && s[1..] == a[1..] + ([c] + b);
      assert a[0] in a && forall x :: x in a[1..] ==> x in a;
      Cut(a[1..], c, b);
    }
  }

  lemma SplitAt(a: string, c: char, b: string)
    requires c !in a
    ensures Split(a + [c] + b, c) == [a] + Split(b, c)
  {
    Associative(a, [c], b);
    Cut(a, c, b);
  }

  lemma {:induction false} LastOfSplit(a: string, c: char, b: string)
    requires c !in b
    ensures var parts := Split(a + [c] + b, c); parts[|parts| - 1] == b
    decreases |a|
  {
    var i := IndexOf(a, c);
    if i == |a| {
      SplitAt(a, c, b);
      assert Split(b, c) == [b];
    } else {
      var first, rest := a[..i], a[i + 1..];
      assert a + [c] + b == first + [c] + (rest + [c] + b);
      SplitAt(first, c, rest + [c] + b);
      LastOfSplit(rest, c, b);
    }
  }

  lemma {:induction false} SplitJoin(parts: seq<string>, c: char)
    requires |parts| > 0
    requires forall p :: p in parts ==> c !in p
    ensures Split(Join(parts, [c]), c) == parts
  {
    if |parts| > 1 {
      var rest := Join(parts[1..], [c]);
      SplitAt(parts[0], c, rest);
      SplitJoin(parts[1..], c);
      assert [parts[0]] + parts[1..] == parts;
    }
  }

  lemma Around(s: string, i: nat)
    requires i < |s|
    ensures s == s[..i] + ([s[i]] + s[i + 1..])
  {
  }

  lemma JoinCons(a: string, rest: seq<string>, sep: string)
    requires rest != []
    ensures Join([a] + rest, sep) == a + sep + Join(rest, sep)
  {
    assert ([a] + rest)[1..] == rest;
  }

  lemma {:induction false} JoinSplit(s: string, c: char)
    ensures Join(Split(s, c), [c]) == s
    decreases |s|
  {
    var i := IndexOf(s, c);
    if i < |s| {
      JoinSplit(s[i + 1..], c);
      JoinCons(s[..i], Split(s[i + 1..], c), [c]);
      Around(s, i);
      Associative(s[..i], [c], s[i + 1..]);
    }
  }

  // str.replace(a, b) for single characters

  function ReplaceChar(s: string, a: char, b: char): (r: string)
    ensures |r| == |s|
    ensures forall i :: 0 <= i < |s| ==> r[i] == if s[i] == a then b else s[i]
  {
    seq(|s|, i requires 0 <= i < |s| => if s[i] == a then b else s[i])
  }

  // str.lower() and the first letter of str.capitalize(), on ASCII letters

  function LowerChar(c: char): char
  {
    if 'A' <= c <= 'Z' then c + (32 as char) else c
  }

  function UpperChar(c: char): char
  {
    if 'a' <= c <= 'z' then c - 'a' + 'A' else c
  }

  function Lower(s: string): string
  {
    seq(|s|, i requires 0 <= i < |s| => LowerChar(s[i]))
  }

  // The order of Python's `<` on strings

  predicate Less(a: string, b: string)
  {
    if b == "" then false
    else if a == "" then true
    else a[0] < b[0] || (a[0] == b[0] && Less(a[1..], b[1..]))
  }

  lemma {:induction false} LessAfter(start: string, a: string, b: string)
    ensures Less(start + a, start + b) <==> Less(a, b)
  {
    if start == "" {
      assert start + a == a && start + b == b;
    } else {
      assert (start + a)[0] == start[0] == (start + b)[0];
      assert (start + a)[1..] == start[1..] + a && (start + b)[1..] == start[1..] + b;
      LessAfter(start[1..], a, b);
    }
  }

  // What follows does not matter when neither text starts with the other one.
  lemma {:induction false} LessBefore(a: string, more: string, b: string, other: string)
    requires !(a <= b) && !(b <= a)
    ensures Less(a + more, b + other) <==> Less(a, b)
  {
    assert (a + more)[0] == a[0] && (b + other)[0] == b[0];
    if a[0] == b[0] {
      assert (a + more)[1..] == a[1..] + more && (b + other)[1..] == b[1..] + other;
      assert a == [a[0]] + a[1..] && b == [b[0]] + b[1..];
      LessBefore(a[1..], more, b[1..], other);
    }
  }

  lemma {:induction false} LessTrichotomy(a: string, b: string)
    ensures a != b ==> (Less(a, b) <==> !Less(b, a))
    ensures a == b ==> !Less(a, b)
  {
    if a != "" && b != "" {
      LessTrichotomy(a[1..], b[1..]);
      assert a == [a[0]] + a[1..] && b == [b[0]] + b[1..];
    }
  }

  lemma {:induction false} LessTransitive(a: string, b: string, c: string)
    requires Less(a, b) && Less(b, c)
    ensures Less(a, c)
  {
    if a != "" && a[0] == b[0] == c[0] {
      LessTransitive(a[1..], b[1..], c[1..]);
    }
  }
}
