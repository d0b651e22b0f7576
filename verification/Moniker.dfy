/** lib_util.SplitMoniker: the key-value pairs of an object id, whose values may be quoted. */
module Moniker {
  import opened Text

  predicate IsWord(c: char) { 'a' <= c <= 'z' || 'A' <= c <= 'Z' || '0' <= c <= '9' || c == '_' }

  // The length of the longest prefix of word characters.
  function WordSpan(s: string): (i: nat)
    ensures i <= |s|
    ensures forall k :: 0 <= k < i ==> IsWord(s[k])
    ensures i < |s| ==> !IsWord(s[i])
  {
    if s == "" || !IsWord(s[0]) then 0 else 1 + WordSpan(s[1..])
  }

  // ---- the words: (?:[^,"]|"(?:\\.|[^"])*")+ ----

  // The end of a string whose opening quote is just before s, or -1. As the regular expression
  // does, an escaped character is tried first, then the backslash alone.
  function QuotedEnd(s: string): (n: int)
    ensures -1 <= n <= |s|
  {
    if |s| >= 2 && s[0] == '\\' && s[1] != '\n' && QuotedEnd(s[2..]) >= 0 then 2 + QuotedEnd(s[2..])
    else if s != "" && s[0] != '"' then (if QuotedEnd(s[1..]) >= 0 then 1 + QuotedEnd(s[1..]) else -1)
    else if s != "" then 1
    else -1
  }

  function WordLength(s: string): (n: nat)
    ensures n <= |s|
  {
    if s == "" || s[0] == ',' then 0
    else if s[0] != '"' then 1 + WordLength(s[1..])
    else
      var q := QuotedEnd(s[1..]);
      if q < 0 then 0 else 1 + q + WordLength(s[1 + q..])
  }

  function Words(s: string): seq<string>
  {
    if s == "" then []
    else
      var n := WordLength(s);
      if n == 0 then Words(s[1..]) else [s[..n]] + Words(s[n..])
  }

  // ---- the pair of a word ----

  datatype Pair = Pair(key: string, value: string) | NoPair

  function FirstLine(s: string): string { s[..IndexOf(s, '\n')] }

  // key="value" where the value goes to the last quote of the line, else key=value.
  function PairOf(word: string): Pair
  {
    var k := WordSpan(word);
    if k == 0 || k == |word| || word[k] != '=' then NoPair
    else
      var rest := word[k + 1..];
      if rest != "" && rest[0] == '"' && RFind(FirstLine(rest[1..]), '"') >= 0
      then Pair(word[..k], rest[1..][..RFind(FirstLine(rest[1..]), '"')])
      else Pair(word[..k], FirstLine(rest))
  }

  function PairsToMap(words: seq<string>): map<string, string>
  {
    if words == [] then map[]
    else
      var before := PairsToMap(words[..|words| - 1]);
      match PairOf(words[|words| - 1])
      case NoPair => before
      case Pair(k, v) => before[k := v]
  }

  function MonikerMap(xid: string): map<string, string> { PairsToMap(Words(xid)) }

  method SplitMoniker(xid: string) returns (resu: map<string, string>)
    ensures resu == MonikerMap(xid)
  {
    var spltLst := Words(xid);
    resu := map[];
    for i := 0 to |spltLst|
      invariant resu == PairsToMap(spltLst[..i])
    {
      assert spltLst[..i + 1][..i] == spltLst[..i];
      match PairOf(spltLst[i]) {
        case NoPair =>
        case Pair(k, v) => resu := resu[k := v];
      }
    }
    assert spltLst[..|spltLst|] == spltLst;
  }

  // ---- the printer ----

  // A value is printed as it is, or between quotes when it may hold commas.
  datatype Field = Field(key: string, value: string, quoted: bool)

  function PrintField(f: Field): string
  {
    f.key + "=" + if f.quoted then "\"" + f.value + "\"" else f.value
  }

  function PrintFields(fs: seq<Field>): (r: seq<string>)
    ensures |r| == |fs|
    ensures forall i :: 0 <= i < |r| ==> r[i] == PrintField(fs[i])
  {
    seq(|fs|, i requires 0 <= i < |fs| => PrintField(fs[i]))
  }

  ghost predicate IsKey(key: string) { key != "" && forall k :: 0 <= k < |key| ==> IsWord(key[k]) }

  ghost predicate Printable(f: Field)
  {
    IsKey(f.key) && Without(f.value, if f.quoted then "\"\\\n" else ",\"\n")
  }

  ghost predicate DistinctKeys(fs: seq<Field>) { forall i, j :: 0 <= i < j < |fs| ==> fs[i].key != fs[j].key }

  function FieldsToMap(fs: seq<Field>): map<string, string>
  {
    if fs == [] then map[] else FieldsToMap(fs[..|fs| - 1])[fs[|fs| - 1].key := fs[|fs| - 1].value]
  }

  // ---- the words of what is printed ----

  lemma {:induction false} QuotedEndOfValue(value: string, rest: string)
    requires Without(value, "\"\\\n")
    ensures QuotedEnd(value + "\"" + rest) == |value| + 1
  {
    var s := value + "\"" + rest;
    if value == "" {
      assert s[0] == '"';
    } else {
      assert s[0] == value[0] && value[0] !in "\"\\\n";
      assert s[1..] == value[1..] + "\"" + rest;
      QuotedEndOfValue(value[1..], rest);
    }
  }

  lemma {:induction false} WordLengthFlat(flat: string, rest: string)
    requires Without(flat, ",\"")
    ensures WordLength(flat + rest) == |flat| + WordLength(rest)
  {
    if flat == "" {
      assert flat + rest == rest;
    } else {
      assert (flat + rest)[0] == flat[0] && flat[0] !in ",\"";
      assert (flat + rest)[1..] == flat[1..] + rest;
      WordLengthFlat(flat[1..], rest);
    }
  }

  lemma WordLengthOfQuoted(value: string, rest: string)
    requires Without(value, "\"\\\n") && (rest != "" ==> rest[0] == ',')
    ensures WordLength("\"" + value + "\"" + rest) == |value| + 2
  {
    var after := value + "\"" + rest;
    QuotedEndOfValue(value, rest);
    WordLengthOfQuote(after);
    Associative("\"", value + "\"", rest);
    Associative("\"", value, "\"");
    assert after[|value| + 1..] == rest;
  }

  lemma WordLengthOfQuote(after: string)
    requires 0 < QuotedEnd(after) <= |after|
    requires var rest := after[QuotedEnd(after)..]; rest != "" ==> rest[0] == ','
    ensures WordLength("\"" + after) == QuotedEnd(after) + 1
  {
    var s := "\"" + after;
    assert s[1..] == after;
    assert s[QuotedEnd(after) + 1..] == after[QuotedEnd(after)..];
  }

  lemma WordLengthOfField(f: Field, rest: string)
    requires Printable(f) && (rest != "" ==> rest[0] == ',')
    ensures WordLength(PrintField(f) + rest) == |PrintField(f)|
  {
    var start := f.key + "=";
    assert Without(start, ",\"") by {
      assert forall k :: 0 <= k < |f.key| ==> start[k] == f.key[k] && IsWord(f.key[k]);
    }
    if f.quoted {
      var after := "\"" + f.value + "\"" + rest;
      assert PrintField(f) + rest == start + after;
      WordLengthFlat(start, after);
      WordLengthOfQuoted(f.value, rest);
    } else {
      assert PrintField(f) + rest == start + (f.value + rest);
      WordLengthFlat(start, f.value + rest);
      WordLengthFlat(f.value, rest);
    }
  }

  // ---- the pair of a printed field ----

  lemma WordSpanAt(a: string, b: string)
    requires forall k :: 0 <= k < |a| ==> IsWord(a[k])
    requires b != "" ==> !IsWord(b[0])
    ensures WordSpan(a + b) == |a|
  {
    var s, i := a + b, WordSpan(a + b);
    assert forall k :: 0 <= k < |a| ==> s[k] == a[k];
    assert b != "" ==> s[|a|] == b[0];
  }

  lemma {:induction false} WordSpanPrefix(a: string, b: string)
    requires WordSpan(a) < |a| || (b != "" ==> !IsWord(b[0]))
    ensures WordSpan(a + b) == WordSpan(a)
  {
    var s := a + b;
    if a == "" {
      assert s == b;
    } else {
      assert s[0] == a[0] && s[1..] == a[1..] + b;
      if IsWord(a[0]) { WordSpanPrefix(a[1..], b); }
    }
  }

  lemma {:induction false} WordSpanOfPrefix(s: string, n: nat)
    requires WordSpan(s) < n <= |s|
    ensures WordSpan(s[..n]) == WordSpan(s)
  {
    var a := s[..n];
    assert a[0] == s[0];
    if IsWord(s[0]) {
      assert a[1..] == s[1..][..n - 1];
      WordSpanOfPrefix(s[1..], n - 1);
    }
  }

  lemma OneLine(s: string)
    requires '\n' !in s
    ensures FirstLine(s) == s
  {
  }

  lemma PairOfField(f: Field)
    requires Printable(f)
    ensures PairOf(PrintField(f)) == Pair(f.key, f.value)
  {
    var word := PrintField(f);
    var rest := if f.quoted then "\"" + f.value + "\"" else f.value;
    assert word == f.key + ("=" + rest);
    WordSpanAt(f.key, "=" + rest);
    assert word[..|f.key|] == f.key && word[|f.key| + 1..] == rest;
    if f.quoted {
      QuotedIsRead(f.value);
    } else {
      OneLine(f.value);
      assert rest != "" ==> rest[0] !in ",\"\n";
    }
  }

  lemma QuotedIsRead(value: string)
    requires Without(value, "\"\n")
    ensures
      var rest := "\"" + value + "\"";
      && rest != "" && rest[0] == '"' && RFind(FirstLine(rest[1..]), '"') == |value|
      && rest[1..][..|value|] == value
  {
    var rest := "\"" + value + "\"";
    assert rest[1..] == value + "\"";
    OneLine(value + "\"");
    assert value + "\"" == value + ['"'] + "";
    RFindAt(value, '"', "");
    assert (value + "\"")[..|value|] == value;
  }

  lemma {:induction false} FieldsToMapIs(fs: seq<Field>)
    requires DistinctKeys(fs)
    ensures forall i :: 0 <= i < |fs| ==> fs[i].key in FieldsToMap(fs) && FieldsToMap(fs)[fs[i].key] == fs[i].value
    ensures forall k :: k in FieldsToMap(fs) ==> exists i :: 0 <= i < |fs| && fs[i].key == k
  {
    if fs != [] {
      FieldsToMapIs(fs[..|fs| - 1]);
    }
  }
}
