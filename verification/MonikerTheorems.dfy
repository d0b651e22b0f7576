/** Exactly when the fields of a printed moniker come back from SplitMoniker. */
module MonikerTheorems {
  import opened Text
  import opened Collections
  import opened Moniker

  // ---- fields which are words ----

  // The splitter cuts the text just after each field, and reads its pair.
  predicate AreWords(fs: seq<Field>)
  {
    fs != [] ==>
      && WordLength(Join(PrintFields(fs), ",")) == |PrintField(fs[0])|
      && PairOf(PrintField(fs[0])) == Pair(fs[0].key, fs[0].value)
      && AreWords(fs[1..])
  }

  // The text of the fields after the first one.
  function After(fs: seq<Field>): string
    requires fs != []
  {
    if |fs| == 1 then "" else "," + Join(PrintFields(fs[1..]), ",")
  }

  lemma JoinIs(fs: seq<Field>)
    requires fs != []
    ensures Join(PrintFields(fs), ",") == PrintField(fs[0]) + After(fs)
  {
    assert PrintFields(fs)[1..] == PrintFields(fs[1..]);
    Associative(PrintField(fs[0]), ",", Join(PrintFields(fs[1..]), ","));
  }

  lemma WordsAfter(fs: seq<Field>)
    requires fs != []
    ensures Words(After(fs)) == Words(Join(PrintFields(fs[1..]), ","))
  {
    if |fs| > 1 {
      assert After(fs)[1..] == Join(PrintFields(fs[1..]), ",");
      assert WordLength(After(fs)) == 0;
    }
  }

  lemma WordsFrom(fs: seq<Field>)
    requires fs != [] && WordLength(Join(PrintFields(fs), ",")) == |PrintField(fs[0])| > 0
    ensures Words(Join(PrintFields(fs), ",")) == [PrintField(fs[0])] + Words(Join(PrintFields(fs[1..]), ","))
  {
    var field, more := PrintField(fs[0]), After(fs);
    JoinIs(fs);
    WordsAfter(fs);
    assert (field + more)[..|field|] == field && (field + more)[|field|..] == more;
  }

  lemma {:induction false} WordsOfFields(fs: seq<Field>)
    requires AreWords(fs)
    ensures Words(Join(PrintFields(fs), ",")) == PrintFields(fs)
    ensures PairsToMap(PrintFields(fs)) == FieldsToMap(fs)
  {
    if fs != [] {
      WordsFrom(fs);
      WordsOfFields(fs[1..]);
      assert PrintFields(fs) == [PrintField(fs[0])] + PrintFields(fs[1..]);
      PairsOfFields(fs);
    }
  }

  lemma {:induction false} PairsOfFields(fs: seq<Field>)
    requires AreWords(fs)
    ensures PairsToMap(PrintFields(fs)) == FieldsToMap(fs)
  {
    PairsAre(fs);
    PairsToFields(fs);
  }

  lemma {:induction false} PairsAre(fs: seq<Field>)
    requires AreWords(fs)
    ensures forall i :: 0 <= i < |fs| ==> PairOf(PrintField(fs[i])) == Pair(fs[i].key, fs[i].value)
  {
    if fs != [] {
      PairsAre(fs[1..]);
      assert forall i :: 1 <= i < |fs| ==> fs[i] == fs[1..][i - 1];
    }
  }

  lemma {:induction false} PairsToFields(fs: seq<Field>)
    requires forall i :: 0 <= i < |fs| ==> PairOf(PrintField(fs[i])) == Pair(fs[i].key, fs[i].value)
    ensures PairsToMap(PrintFields(fs)) == FieldsToMap(fs)
  {
    if fs != [] {
      var n := |fs| - 1;
      assert PrintFields(fs)[..n] == PrintFields(fs[..n]);
      PairsToFields(fs[..n]);
    }
  }

  // Fields which are printed with care, quoted or not, are words.
  lemma {:induction false} PrintableAreWords(fs: seq<Field>)
    requires forall i :: 0 <= i < |fs| ==> Printable(fs[i])
    ensures AreWords(fs)
  {
    if fs != [] {
      JoinIs(fs);
      WordLengthOfField(fs[0], After(fs));
      PairOfField(fs[0]);
      PrintableAreWords(fs[1..]);
    }
  }

  // Splitting undoes the join, whether the values are quoted or not.
  lemma SplitMonikerOfJoin(fs: seq<Field>)
    requires forall i :: 0 <= i < |fs| ==> Printable(fs[i])
    ensures MonikerMap(Join(PrintFields(fs), ",")) == FieldsToMap(fs)
  {
    PrintableAreWords(fs);
    WordsOfFields(fs);
  }

  // ---- the room which words take ----

  // Each word with the separator after it.
  function Room(words: seq<string>): nat
  {
    if words == [] then 0 else |words[0]| + 1 + Room(words[1..])
  }

  lemma {:induction false} RoomConcat(a: seq<string>, b: seq<string>)
    ensures Room(a + b) == Room(a) + Room(b)
  {
    if a == [] {
      assert a + b == b;
    } else {
      assert (a + b)[1..] == a[1..] + b;
      RoomConcat(a[1..], b);
    }
  }

  lemma RoomOfLast(words: seq<string>)
    requires words != []
    ensures Room(words) == Room(words[..|words| - 1]) + |words[|words| - 1]| + 1
  {
    var n := |words| - 1;
    RoomConcat(words[..n], [words[n]]);
    assert words == words[..n] + [words[n]];
    assert Room([words[n]]) == |words[n]| + 1;
  }

  lemma RoomWithout(words: seq<string>, i: nat)
    requires i < |words|
    ensures Room(words) == Room(words[..i] + words[i + 1..]) + |words[i]| + 1
  {
    RoomConcat(words[..i], words[i + 1..]);
    RoomConcat(words[..i], words[i..]);
    assert words == words[..i] + words[i..];
  }

  // What stops a word is not the start of another one.
  lemma {:induction false} WordIsMaximal(s: string)
    ensures WordLength(s[WordLength(s)..]) == 0
  {
    if s != "" && s[0] != ',' {
      if s[0] != '"' {
        WordIsMaximal(s[1..]);
        assert s[WordLength(s)..] == s[1..][WordLength(s[1..])..];
      } else {
        var q := QuotedEnd(s[1..]);
        if q >= 0 {
          WordIsMaximal(s[1 + q..]);
          assert s[WordLength(s)..] == s[1 + q..][WordLength(s[1 + q..])..];
        } else {
          assert s[0..] == s;
        }
      }
    }
  }

  lemma {:induction false} RoomOfWords(s: string)
    ensures Room(Words(s)) <= |s| + 1
    decreases |s|
  {
    if s != "" {
      var n := WordLength(s);
      if n == 0 {
        RoomOfWords(s[1..]);
      } else {
        var more := s[n..];
        WordIsMaximal(s);
        if more != "" {
          RoomOfWords(more[1..]);
          assert Words(more) == Words(more[1..]);
        }
        RoomConcat([s[..n]], Words(more));
        assert Room([s[..n]]) == n + 1;
      }
    }
  }

  lemma {:induction false} RoomOfJoin(words: seq<string>)
    requires words != []
    ensures Room(words) == |Join(words, ",")| + 1
  {
    if |words| > 1 {
      RoomOfJoin(words[1..]);
    }
  }

  // ---- fields which are in a dictionary ----

  ghost predicate Holds(m: map<string, string>, fs: seq<Field>)
  {
    forall i :: 0 <= i < |fs| ==> fs[i].key in m && m[fs[i].key] == fs[i].value
  }

  ghost predicate Unquoted(fs: seq<Field>)
  {
    DistinctKeys(fs) && forall i :: 0 <= i < |fs| ==> IsKey(fs[i].key) && !fs[i].quoted
  }

  lemma PairTakesRoom(word: string)
    requires PairOf(word).Pair?
    ensures |PairOf(word).key| + 1 + |PairOf(word).value| <= |word|
  {
  }

  lemma FieldsWithout(fs: seq<Field>, i: nat)
    requires Unquoted(fs) && i < |fs|
    ensures
      var rest := fs[..i] + fs[i + 1..];
      && Unquoted(rest) && (forall k :: 0 <= k < |rest| ==> rest[k].key != fs[i].key && rest[k] in fs)
      && Room(PrintFields(fs)) == Room(PrintFields(rest)) + |PrintField(fs[i])| + 1
  {
    var rest := fs[..i] + fs[i + 1..];
    assert PrintFields(rest) == PrintFields(fs)[..i] + PrintFields(fs)[i + 1..];
    RoomWithout(PrintFields(fs), i);
  }

  lemma HoldsOthers(m: map<string, string>, k: string, v: string, fs: seq<Field>)
    requires Holds(m[k := v], fs) && forall i :: 0 <= i < |fs| ==> fs[i].key != k
    ensures Holds(m, fs)
  {
  }

  // The words of the values in a dictionary take at least the room of the fields.
  lemma {:induction false} FieldsTakeRoom(words: seq<string>, fs: seq<Field>)
    requires Unquoted(fs) && Holds(PairsToMap(words), fs)
    ensures Room(PrintFields(fs)) <= Room(words)
  {
    if words != [] {
      var n := |words| - 1;
      RoomOfLast(words);
      match PairOf(words[n])
      case NoPair => FieldsTakeRoom(words[..n], fs);
      case Pair(k, v) =>
        var before := PairsToMap(words[..n]);
        if i :| 0 <= i < |fs| && fs[i].key == k {
          var rest := fs[..i] + fs[i + 1..];
          FieldsWithout(fs, i);
          assert Holds(before[k := v], rest);
          HoldsOthers(before, k, v, rest);
          PairTakesRoom(words[n]);
          FieldsTakeRoom(words[..n], rest);
        } else {
          HoldsOthers(before, k, v, fs);
          FieldsTakeRoom(words[..n], fs);
        }
    }
  }

  // A shorter text does not hold all the fields.
  lemma ShorterLosesFields(s: string, fs: seq<Field>)
    requires Unquoted(fs) && |s| < |Join(PrintFields(fs), ",")|
    ensures !Holds(MonikerMap(s), fs)
  {
    if Holds(MonikerMap(s), fs) {
      RoomOfWords(s);
      RoomOfJoin(PrintFields(fs));
      FieldsTakeRoom(Words(s), fs);
    }
  }

  lemma {:induction false} PairsOfCons(word: string, rest: seq<string>)
    ensures PairsToMap([word] + rest) == PairsToMap([word]) + PairsToMap(rest)
  {
    var all := [word] + rest;
    if rest == [] {
      assert all == [word];
    } else {
      var n := |rest| - 1;
      assert all[..|all| - 1] == [word] + rest[..n];
      PairsOfCons(word, rest[..n]);
    }
  }

  lemma PairsOfOne(word: string)
    ensures PairsToMap([word]) == match PairOf(word) case NoPair => map[] case Pair(k, v) => map[k := v]
  {
    assert [word][..0] == [];
  }

  // The first word starts as the first field does.
  lemma FirstWord(fs: seq<Field>) returns (word: string, rest: seq<string>)
    requires fs != [] && Unquoted(fs)
    ensures
      var s, f := Join(PrintFields(fs), ","), fs[0];
      && |word| == WordLength(s) && |f.key| < |word| && word == s[..|word|] && rest == Words(s[|word|..])
      && Words(s) == [word] + rest
      && (PairOf(word).Pair? ==> PairOf(word).key == f.key)
  {
    var s, f := Join(PrintFields(fs), ","), fs[0];
    var start, more := f.key + "=", f.value + After(fs);
    JoinIs(fs);
    Associative(start, f.value, After(fs));
    KeyIsFlat(f.key);
    WordLengthFlat(start, more);
    word, rest := s[..WordLength(s)], Words(s[WordLength(s)..]);
    StartsWithKey(f.key, more, |word|);
  }

  lemma KeyIsFlat(key: string)
    requires IsKey(key)
    ensures Without(key + "=", ",\"")
  {
    assert forall k :: 0 <= k < |key| ==> (key + "=")[k] == key[k] && IsWord(key[k]);
  }

  lemma StartsWithKey(key: string, more: string, n: nat)
    requires IsKey(key) && |key| < n <= |key + "=" + more|
    ensures WordSpan((key + "=" + more)[..n]) == |key| && (key + "=" + more)[..n][..|key|] == key
  {
    var word := (key + "=" + more)[..n];
    assert word == key + word[|key|..];
    WordSpanAt(key, word[|key|..]);
  }

  // The fields of the first word are not given by the others: there is no room.
  lemma FirstIsGiven(fs: seq<Field>, word: string, rest: seq<string>)
    requires fs != [] && Unquoted(fs) && word != ""
    requires Words(Join(PrintFields(fs), ",")) == [word] + rest && (PairOf(word).Pair? ==> PairOf(word).key == fs[0].key)
    requires Holds(PairsToMap([word] + rest), fs)
    ensures fs[0].key !in PairsToMap(rest) && PairOf(word) == Pair(fs[0].key, fs[0].value)
    ensures Holds(PairsToMap(rest), fs[1..])
  {
    PairsOfCons(word, rest);
    PairsOfOne(word);
    RoomOfWords(Join(PrintFields(fs), ","));
    RoomConcat([word], rest);
    assert Room([word]) == |word| + 1;
    RoomOfJoin(PrintFields(fs));
    if fs[0].key in PairsToMap(rest) {
      FieldsTakeRoom(rest, fs);
      assert false;
    }
    assert forall i :: 0 <= i < |fs[1..]| ==> fs[1..][i] == fs[i + 1];
  }

  lemma FirstIsWord(fs: seq<Field>)
    requires fs != [] && Unquoted(fs) && Holds(MonikerMap(Join(PrintFields(fs), ",")), fs)
    ensures WordLength(Join(PrintFields(fs), ",")) == |PrintField(fs[0])|
    ensures PairOf(PrintField(fs[0])) == Pair(fs[0].key, fs[0].value)
    ensures Holds(MonikerMap(Join(PrintFields(fs[1..]), ",")), fs[1..])
  {
    var s, field := Join(PrintFields(fs), ","), PrintField(fs[0]);
    var word, rest := FirstWord(fs);
    FirstIsGiven(fs, word, rest);
    PairTakesRoom(word);
    FieldsTakeRoom(rest, fs[1..]);
    RoomOfWords(s);
    RoomConcat([word], rest);
    assert Room([word]) == |word| + 1;
    RoomOfJoin(PrintFields(fs));
    assert PrintFields(fs)[1..] == PrintFields(fs[1..]);
    assert |word| == |field|;
    JoinIs(fs);
    assert s[..|field|] == field && s[|field|..] == After(fs);
    WordsAfter(fs);
  }

  lemma {:induction false} FieldsAreWords(fs: seq<Field>)
    requires Unquoted(fs) && Holds(MonikerMap(Join(PrintFields(fs), ",")), fs)
    ensures AreWords(fs)
  {
    if fs != [] {
      FirstIsWord(fs);
      assert forall i :: 0 <= i < |fs[1..]| ==> fs[1..][i] == fs[i + 1];
      FieldsAreWords(fs[1..]);
    }
  }

  // ---- the values of such fields ----

  // From left to right quotes are closed, and commas are inside of quotes. There, a backslash takes the next character
  // with it as long as a quote follows: in the value, or later in the text.
  predicate IsClosed(value: string, inside: bool, later: bool)
  {
    if value == "" then !inside
    else if value[0] == '"' then IsClosed(value[1..], !inside, later)
    else if inside && value[0] == '\\' && |value| >= 2 && value[1] != '\n' && (later || '"' in value[2..]) then
      IsClosed(value[2..], inside, later)
    else (inside || value[0] != ',') && IsClosed(value[1..], inside, later)
  }

  // A value which is one word and is not read as a quoted one.
  predicate IsWhole(value: string, later: bool)
  {
    IsClosed(value, false, later) && '\n' !in value && (value != "" ==> value[0] != '"')
  }

  predicate HasQuote(values: seq<string>) { values != [] && ('"' in values[0] || HasQuote(values[1..])) }

  predicate AllWhole(values: seq<string>)
  {
    values != [] ==> IsWhole(values[0], HasQuote(values[1..])) && AllWhole(values[1..])
  }

  function ValuesIn(fs: seq<Field>): (values: seq<string>)
    ensures |values| == |fs|
    ensures forall i :: 0 <= i < |fs| ==> values[i] == fs[i].value
  {
    seq(|fs|, i requires 0 <= i < |fs| => fs[i].value)
  }

  lemma {:induction false} QuotedEndIff(s: string)
    ensures QuotedEnd(s) >= 0 <==> '"' in s
    ensures QuotedEnd(s) != 0
  {
    if s != "" {
      assert s == [s[0]] + s[1..];
      QuotedEndIff(s[1..]);
      if |s| >= 2 {
        assert s[1..] == [s[1]] + s[2..];
        QuotedEndIff(s[2..]);
      }
    }
  }

  // Just after an opening quote, the word ends here.
  predicate EndsAt(s: string, n: nat)
  {
    QuotedEnd(s) >= 0 && QuotedEnd(s) + WordLength(s[QuotedEnd(s)..]) == n
  }

  lemma EndsLater(s: string, k: nat, n: nat)
    requires k <= |s| && k <= n
    requires QuotedEnd(s) == if QuotedEnd(s[k..]) >= 0 then k + QuotedEnd(s[k..]) else -1
    ensures EndsAt(s, n) <==> EndsAt(s[k..], n - k)
  {
    if QuotedEnd(s[k..]) >= 0 {
      assert s[QuotedEnd(s)..] == s[k..][QuotedEnd(s[k..])..];
    }
  }

  lemma {:induction false} InsideIff(value: string, more: string, later: bool)
    requires (more != "" ==> more[0] == ',') && (later <==> '"' in more)
    ensures EndsAt(value + more, |value|) <==> IsClosed(value, true, later)
    decreases |value|
  {
    if value == "" {
      assert value + more == more;
      NotClosedYet(more);
    } else if value[0] == '"' {
      ClosedHere(value, more);
      OutsideIff(value[1..], more, later);
    } else if |value| == 1 {
      LastIsNotClosed(value, more);
    } else if value[0] == '\\' && value[1] != '\n' && (later || '"' in value[2..]) {
      Escaped(value, more, later);
      InsideIff(value[2..], more, later);
    } else {
      NotEscaped(value, more, later);
      InsideIff(value[1..], more, later);
    }
  }

  lemma NotClosedYet(s: string)
    ensures !EndsAt(s, 0)
  {
    QuotedEndIff(s);
  }

  lemma ClosedHere(value: string, more: string)
    requires value != "" && value[0] == '"'
    ensures EndsAt(value + more, |value|) <==> WordLength(value[1..] + more) == |value| - 1
  {
    var s := value + more;
    assert s[0] == value[0] && s[1..] == value[1..] + more;
  }

  // A backslash, which takes the next character.
  lemma Escaped(value: string, more: string, later: bool)
    requires |value| >= 2 && value[0] == '\\' && value[1] != '\n' && (later || '"' in value[2..]) && (later <==> '"' in more)
    ensures EndsAt(value + more, |value|) <==> EndsAt(value[2..] + more, |value| - 2)
  {
    var s := value + more;
    assert s[0] == value[0] && s[1] == value[1] && s[2..] == value[2..] + more;
    QuotedEndIff(s[2..]);
    EndsLater(s, 2, |value|);
  }

  // A last character which is no quote.
  lemma LastIsNotClosed(value: string, more: string)
    requires |value| == 1 && value[0] != '"'
    ensures !EndsAt(value + more, 1)
  {
    var s := value + more;
    assert s[0] == value[0];
    QuotedEndIff(s[1..]);
  }

  lemma NotEscaped(value: string, more: string, later: bool)
    requires |value| >= 2 && value[0] != '"' && (later <==> '"' in more)
    requires !(value[0] == '\\' && value[1] != '\n' && (later || '"' in value[2..]))
    ensures EndsAt(value + more, |value|) <==> EndsAt(value[1..] + more, |value| - 1)
  {
    var s := value + more;
    assert s[0] == value[0] && s[1] == value[1] && s[1..] == value[1..] + more && s[2..] == value[2..] + more;
    QuotedEndIff(s[2..]);
    EndsLater(s, 1, |value|);
  }

  lemma {:induction false} OutsideIff(value: string, more: string, later: bool)
    requires (more != "" ==> more[0] == ',') && (later <==> '"' in more)
    ensures WordLength(value + more) == |value| <==> IsClosed(value, false, later)
    decreases |value|
  {
    var s := value + more;
    if value == "" {
      assert s == more;
    } else {
      var rest := s[1..];
      assert s[0] == value[0] && rest == value[1..] + more;
      if value[0] == '"' {
        InsideIff(value[1..], more, later);
        assert QuotedEnd(rest) >= 0 ==> s[1 + QuotedEnd(rest)..] == rest[QuotedEnd(rest)..];
      } else {
        OutsideIff(value[1..], more, later);
      }
    }
  }

  lemma {:induction false} ClosedHasQuote(value: string, later: bool)
    requires IsClosed(value, true, later)
    ensures '"' in value
    decreases |value|
  {
    if value[0] != '"' {
      if IsClosed(value[1..], true, later) {
        ClosedHasQuote(value[1..], later);
      } else {
        ClosedHasQuote(value[2..], later);
      }
    }
  }

  lemma PairOfValue(key: string, value: string, later: bool)
    requires IsKey(key) && IsClosed(value, false, later)
    ensures PairOf(key + "=" + value) == Pair(key, value) <==> '\n' !in value && (value != "" ==> value[0] != '"')
  {
    if value != "" && value[0] == '"' {
      ClosedHasQuote(value[1..], later);
      PairOfQuoted(key, value);
    } else {
      PairOfUnquoted(key, value);
      FirstLineIff(value);
    }
  }

  // The quotes of a value which starts with one are dropped.
  lemma PairOfQuoted(key: string, value: string)
    requires IsKey(key) && value != "" && value[0] == '"' && '"' in value[1..]
    ensures PairOf(key + "=" + value) != Pair(key, value)
  {
    var word := key + ("=" + value);
    Associative(key, "=", value);
    WordSpanAt(key, "=" + value);
    assert word[..|key|] == key && word[|key| + 1..] == value;
    if RFind(FirstLine(value[1..]), '"') < 0 {
      FirstLineIff(value[1..]);
      FirstLineIff(value);
    }
  }

  lemma {:induction false} QuoteInJoin(fs: seq<Field>)
    requires Unquoted(fs)
    ensures '"' in Join(PrintFields(fs), ",") <==> HasQuote(ValuesIn(fs))
    decreases |fs|, 1
  {
    if fs != [] {
      QuoteAfter(fs);
      JoinIs(fs);
      KeyIsFlat(fs[0].key);
      var start := fs[0].key + "=";
      assert '"' !in start;
      assert ValuesIn(fs)[1..] == ValuesIn(fs[1..]);
    }
  }

  lemma {:induction false} QuoteAfter(fs: seq<Field>)
    requires fs != [] && Unquoted(fs)
    ensures '"' in After(fs) <==> HasQuote(ValuesIn(fs[1..]))
    decreases |fs|, 0
  {
    assert forall i :: 0 <= i < |fs[1..]| ==> fs[1..][i] == fs[i + 1];
    QuoteInJoin(fs[1..]);
  }

  lemma FieldIsWordIff(fs: seq<Field>)
    requires fs != [] && Unquoted(fs)
    ensures
      var f := fs[0];
      (WordLength(Join(PrintFields(fs), ",")) == |PrintField(f)| && PairOf(PrintField(f)) == Pair(f.key, f.value)) <==>
        IsWhole(f.value, HasQuote(ValuesIn(fs[1..])))
  {
    var f, start, later := fs[0], fs[0].key + "=", HasQuote(ValuesIn(fs[1..]));
    JoinIs(fs);
    KeyIsFlat(f.key);
    Associative(start, f.value, After(fs));
    WordLengthFlat(start, f.value + After(fs));
    QuoteAfter(fs);
    OutsideIff(f.value, After(fs), later);
    if IsClosed(f.value, false, later) {
      PairOfValue(f.key, f.value, later);
    }
  }

  lemma {:induction false} AreWordsIff(fs: seq<Field>)
    requires Unquoted(fs)
    ensures AreWords(fs) <==> AllWhole(ValuesIn(fs))
  {
    if fs != [] {
      assert forall i :: 0 <= i < |fs[1..]| ==> fs[1..][i] == fs[i + 1];
      assert ValuesIn(fs)[1..] == ValuesIn(fs[1..]);
      FieldIsWordIff(fs);
      AreWordsIff(fs[1..]);
    }
  }

  // Main result, for any values: all of them come back under their keys if and only if each one is whole.
  lemma FieldsComeBackIff(fs: seq<Field>)
    requires Unquoted(fs)
    ensures Holds(MonikerMap(Join(PrintFields(fs), ",")), fs) <==> AllWhole(ValuesIn(fs))
  {
    AreWordsIff(fs);
    if AreWords(fs) {
      WordsOfFields(fs);
      FieldsToMapIs(fs);
    } else if Holds(MonikerMap(Join(PrintFields(fs), ",")), fs) {
      FieldsAreWords(fs);
    }
  }

  // A value without quotes is whole if and only if it has no comma and no newline.
  lemma PlainIsWhole(value: string, later: bool)
    requires '"' !in value
    ensures IsWhole(value, later) <==> ',' !in value && '\n' !in value
  {
    PlainIsClosed(value, later);
    assert value != "" ==> value[0] in value;
  }

  lemma {:induction false} PlainIsClosed(value: string, later: bool)
    requires '"' !in value
    ensures IsClosed(value, false, later) <==> ',' !in value
  {
    if value != "" {
      assert value == [value[0]] + value[1..];
      PlainIsClosed(value[1..], later);
    }
  }

  lemma {:induction false} PlainAreWhole(values: seq<string>)
    requires forall i :: 0 <= i < |values| ==> '"' !in values[i]
    ensures AllWhole(values) <==> forall i :: 0 <= i < |values| ==> ',' !in values[i] && '\n' !in values[i]
  {
    if values != [] {
      var rest := values[1..];
      assert forall i :: 0 <= i < |rest| ==> rest[i] == values[i + 1];
      PlainIsWhole(values[0], HasQuote(rest));
      PlainAreWhole(rest);
      assert forall i :: 1 <= i < |values| ==> values[i] == rest[i - 1];
    }
  }

  // Without backslashes, what comes later does not matter.
  lemma {:induction false} ClosedAlone(value: string, inside: bool)
    requires '\\' !in value
    ensures IsClosed(value, inside, true) <==> IsClosed(value, inside, false)
  {
    if value != "" {
      assert value == [value[0]] + value[1..];
      ClosedAlone(value[1..], true);
      ClosedAlone(value[1..], false);
    }
  }

  lemma PairOfUnquoted(key: string, value: string)
    requires IsKey(key) && (value != "" ==> value[0] != '"')
    ensures PairOf(key + "=" + value) == Pair(key, FirstLine(value))
  {
    var word := key + ("=" + value);
    Associative(key, "=", value);
    WordSpanAt(key, "=" + value);
    assert word[..|key|] == key && word[|key| + 1..] == value;
  }

  lemma FirstLineIff(s: string)
    ensures FirstLine(s) == s <==> '\n' !in s
  {
  }
}
