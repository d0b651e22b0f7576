/** From an object to its URL and back: the ontology of the classes, shared and extended in place,
    BuildEntity, and EntityIdToArray. */
module Names {
  import opened Text
  import opened Moniker
  import opened MonikerTheorems
  import opened Xid

  type Ontology = map<string, seq<string>>

  // The keys which the module of a class declares, if there is one.
  datatype Declared = Keys(keys: seq<string>) | NoModule

  // The keys of a class; shared tells that the list is the one stored in the cache, so that
  // extending it in place extends the cache.
  datatype Lookup = Lookup(keys: seq<string>, shared: bool, cache: Ontology)

  function ClassKeys(cache: Ontology, kind: string, modules: string -> Declared): Lookup
  {
    if kind in cache then Lookup(cache[kind], true, cache)
    else
      match modules(kind)
      case Keys(keys) => Lookup(keys, true, cache[kind := keys])
      case NoModule => Lookup([], false, cache[kind := []])
  }

  function FakeKey(i: nat): string { "Key_" + Decimal(i) }

  function FakeKeys(from: nat, to: nat): (r: seq<string>)
    ensures |r| == if from <= to then to - from else 0
    ensures forall i :: 0 <= i < |r| ==> r[i] == FakeKey(from + i)
  {
    if from >= to then [] else seq(to - from, i requires 0 <= i => FakeKey(from + i))
  }

  function Extended(keys: seq<string>, count: nat): (r: seq<string>)
    ensures |r| == if |keys| < count then count else |keys|
  {
    keys + FakeKeys(|keys|, count)
  }

  // The cache after BuildEntity, which appends to the list it was given.
  function CacheAfter(cache: Ontology, kind: string, modules: string -> Declared, count: nat): Ontology
  {
    var look := ClassKeys(cache, kind, modules);
    if look.shared then look.cache[kind := Extended(look.keys, count)] else look.cache
  }

  function KeysUsed(cache: Ontology, kind: string, modules: string -> Declared, count: nat): seq<string>
  {
    Extended(ClassKeys(cache, kind, modules).keys, count)
  }

  // dict(zip(keys, values)).items(): the items are in the order of the keys, which are distinct.
  function Zip(keys: seq<string>, values: seq<string>): (r: seq<Field>)
    ensures |r| == if |keys| <= |values| then |keys| else |values|
    ensures forall i :: 0 <= i < |r| ==> r[i] == Field(keys[i], values[i], false)
  {
    var n := if |keys| <= |values| then |keys| else |values|;
    seq(n, i requires 0 <= i < n => Field(keys[i], values[i], false))
  }

  // EntityIdToArray; KeyError when a key of the ontology is missing.
  datatype Values = Values(values: seq<string>) | KeyError(key: string)

  function ValuesOf(m: map<string, string>, keys: seq<string>): (r: Values)
    ensures r.Values? <==> forall k :: k in keys ==> k in m
    ensures r.Values? ==> |r.values| == |keys| && forall i :: 0 <= i < |keys| ==> r.values[i] == m[keys[i]]
    ensures r.KeyError? ==> r.key in keys && r.key !in m
  {
    if keys == [] then Values([])
    else if keys[0] !in m then KeyError(keys[0])
    else
      match ValuesOf(m, keys[1..])
      case KeyError(k) => KeyError(k)
      case Values(v) => Values([m[keys[0]]] + v)
  }

  function IdToArray(cache: Ontology, kind: string, modules: string -> Declared, id: string): Values
  {
    ValuesOf(MonikerMap(id), ClassKeys(cache, kind, modules).keys)
  }

  // ---- the program ----

  class Server {
    const modules: string -> Declared
    var localOntology: Ontology

    constructor (modules: string -> Declared)
      ensures this.modules == modules && localOntology == map[]
    {
      this.modules := modules;
      localOntology := map[];
    }

    method OntologyClassKeys(kind: string) returns (keys: seq<string>, shared: bool)
      modifies this
      ensures Lookup(keys, shared, localOntology) == ClassKeys(old(localOntology), kind, modules)
    {
      if kind in localOntology {
        return localOntology[kind], true;
      }
      match modules(kind) {
        case Keys(declared) =>
          localOntology := localOntology[kind := declared];
          return declared, true;
        case NoModule =>
          // The list which is returned is not the one which is stored.
          localOntology := localOntology[kind := []];
          return [], false;
      }
    }

    method BuildEntity(kind: string, values: seq<string>) returns (id: string)
      modifies this
      ensures localOntology == CacheAfter(old(localOntology), kind, modules, |values|)
      ensures id == Join(PrintFields(Zip(KeysUsed(old(localOntology), kind, modules, |values|), values)), ",")
    {
      var keys, shared := OntologyClassKeys(kind);
      var fake := FakeKeys(|keys|, |values|);
      if |keys| < |values| {
        keys := keys + fake;
        if shared {
          localOntology := localOntology[kind := keys];
        }
      } else {
        assert keys + fake == keys;
      }
      id := Join(PrintFields(Zip(keys, values)), ",");
    }

    // The xid argument of the URL made by UriMake, on the local box or on a remote one.
    method UriMake(machine: string, kind: string, values: seq<string>) returns (xid: string)
      modifies this
      ensures localOntology == CacheAfter(old(localOntology), kind, modules, |values|)
      ensures xid == XidOf(old(localOntology), kind, modules, machine, values)
    {
      var id := BuildEntity(kind, values);
      xid := BuildXid(machine, kind, id);
    }

    method EntityIdToArray(kind: string, id: string) returns (r: Values)
      modifies this
      ensures r == IdToArray(old(localOntology), kind, modules, id)
      ensures localOntology == ClassKeys(old(localOntology), kind, modules).cache
    {
      var keys, _ := OntologyClassKeys(kind);
      var dictIds := SplitMoniker(id);
      r := ValuesOf(dictIds, keys);
    }
  }

  function IdOf(cache: Ontology, kind: string, modules: string -> Declared, values: seq<string>): string
  {
    Join(PrintFields(Zip(KeysUsed(cache, kind, modules, |values|), values)), ",")
  }

  function XidOf(cache: Ontology, kind: string, modules: string -> Declared, machine: string, values: seq<string>): string
  {
    BuildXid(machine, kind, IdOf(cache, kind, modules, values))
  }

  // ---- the identifiers which are built ----

  ghost predicate GoodKeys(keys: seq<string>)
  {
    && (forall k :: k in keys ==> IsKey(k))
    && forall i, j :: 0 <= i < j < |keys| ==> keys[i] != keys[j]
  }

  lemma ZipIsUnquoted(keys: seq<string>, values: seq<string>)
    requires GoodKeys(keys)
    ensures Unquoted(Zip(keys, values))
  {
    var fs := Zip(keys, values);
    assert forall i :: 0 <= i < |fs| ==> fs[i].key == keys[i] && keys[i] in keys;
  }

  lemma JoinedHasEqual(fs: seq<Field>)
    requires fs != [] ==> IsKey(fs[0].key)
    ensures EqualBeforeAt(Join(PrintFields(fs), ","))
  {
    if fs != [] {
      var s, key := Join(PrintFields(fs), ","), fs[0].key;
      var n := |key|;
      assert s[..n + 1] == key + "=";
      assert forall k :: 0 <= k < n ==> s[k] == s[..n + 1][k] == key[k] && IsWord(key[k]);
      assert s[n] == s[..n + 1][n] == '=';
      if '@' in s {
        var at := IndexOf(s, '@');
        assert at > n;
        assert s[..at][n] == '=';
      }
    }
  }

  // ---- ids which are read as they are ----

  lemma {:induction false} NoEscapeConcat(a: string, b: string)
    requires b != "" ==> HexValue(b[0]) < 0
    ensures NoEscape(a + b) <==> NoEscape(a) && NoEscape(b)
  {
    var s := a + b;
    if a == "" {
      assert s == b;
    } else {
      assert s[0] == a[0] && s[1..] == a[1..] + b;
      NoEscapeConcat(a[1..], b);
      if a[0] == '%' && |s| >= 3 {
        assert |a| == 1 ==> s[1] == b[0];
        assert |a| == 2 ==> s[2] == b[0];
      }
    }
  }

  lemma {:induction false} NoEscapeAfter(start: string, s: string)
    requires '%' !in start
    ensures NoEscape(start + s) <==> NoEscape(s)
  {
    if start == "" {
      assert start + s == s;
    } else {
      assert start[0] in start && forall c :: c in start[1..] ==> c in start;
      assert (start + s)[0] == start[0] && (start + s)[1..] == start[1..] + s;
      NoEscapeAfter(start[1..], s);
    }
  }

  lemma ReadableConcat(a: string, b: string)
    requires b != "" ==> HexValue(b[0]) < 0
    ensures IsReadable(a + b) <==> IsReadable(a) && IsReadable(b)
  {
    NoEscapeConcat(a, b);
  }

  lemma FieldIsReadable(f: Field)
    requires IsKey(f.key) && !f.quoted
    ensures IsReadable(PrintField(f)) <==> IsReadable(f.value)
  {
    var start := f.key + "=";
    assert forall k :: 0 <= k < |start| ==> start[k] == if k < |f.key| then f.key[k] else '=';
    assert '%' !in start && '\n' !in start;
    NoEscapeAfter(start, f.value);
  }

  // An id is read as it is, if and only if each value is.
  lemma {:induction false} IdIsReadableIff(fs: seq<Field>)
    requires Unquoted(fs)
    ensures IsReadable(Join(PrintFields(fs), ",")) <==> forall i :: 0 <= i < |fs| ==> IsReadable(fs[i].value)
  {
    if fs != [] {
      var rest := fs[1..];
      assert forall i :: 0 <= i < |rest| ==> rest[i] == fs[i + 1];
      IdIsReadableIff(rest);
      JoinIs(fs);
      ReadableConcat(PrintField(fs[0]), After(fs));
      FieldIsReadable(fs[0]);
      AfterIsReadable(fs);
      assert forall i :: 1 <= i < |fs| ==> fs[i] == rest[i - 1];
    }
  }

  lemma AfterIsReadable(fs: seq<Field>)
    requires fs != []
    ensures IsReadable(After(fs)) <==> IsReadable(Join(PrintFields(fs[1..]), ","))
  {
    if |fs| > 1 {
      NoEscapeAfter(",", Join(PrintFields(fs[1..]), ","));
    }
  }

  ghost predicate AllReadable(values: seq<string>) { forall i :: 0 <= i < |values| ==> IsReadable(values[i]) }

  // ---- the round trip ----

  // The identifier which is built is parsed into its class, what is read of its id, and its machine.
  lemma XidParts(cache: Ontology, kind: string, modules: string -> Declared, machine: string, values: seq<string>)
    requires IsKind(kind) && IsLocalHost(machine) && GoodKeys(KeysUsed(cache, kind, modules, |values|))
    ensures ParseXid(XidOf(cache, kind, modules, machine, values)) == Entity(kind, ReadId(IdOf(cache, kind, modules, values)), machine)
  {
    ZipIsUnquoted(KeysUsed(cache, kind, modules, |values|), values);
    JoinedHasEqual(Zip(KeysUsed(cache, kind, modules, |values|), values));
    NotRemote(kind, IdOf(cache, kind, modules, values));
    LocalParts(machine, kind, IdOf(cache, kind, modules, values));
  }

  // The id comes back as well, if and only if no value has a newline or an escape sequence.
  lemma XidRoundTrip(cache: Ontology, kind: string, modules: string -> Declared, machine: string, values: seq<string>)
    requires IsKind(kind) && IsLocalHost(machine) && GoodKeys(KeysUsed(cache, kind, modules, |values|))
    ensures ParseXid(XidOf(cache, kind, modules, machine, values)) == Entity(kind, IdOf(cache, kind, modules, values), machine) <==>
      AllReadable(values)
  {
    var fs := Zip(KeysUsed(cache, kind, modules, |values|), values);
    ZipIsUnquoted(KeysUsed(cache, kind, modules, |values|), values);
    XidParts(cache, kind, modules, machine, values);
    ReadIdIff(IdOf(cache, kind, modules, values));
    IdIsReadableIff(fs);
    assert forall i :: 0 <= i < |fs| ==> fs[i].value == values[i];
  }

  // There are as many values as keys, or more and the list of the keys was the shared one; fewer never come back.
  predicate CountComesBack(cache: Ontology, kind: string, modules: string -> Declared, count: nat)
  {
    var look := ClassKeys(cache, kind, modules);
    |look.keys| == count || (|look.keys| < count && look.shared)
  }

  // The values come back when besides, each of them is whole for the splitter.
  predicate ValuesComeBack(cache: Ontology, kind: string, modules: string -> Declared, values: seq<string>)
  {
    CountComesBack(cache, kind, modules, |values|) && AllWhole(values)
  }

  lemma ZipHasValues(keys: seq<string>, values: seq<string>)
    requires |values| <= |keys|
    ensures ValuesIn(Zip(keys, values)) == values
  {
  }

  lemma KeysAfter(cache: Ontology, kind: string, modules: string -> Declared, count: nat)
    ensures
      var look := ClassKeys(cache, kind, modules);
      ClassKeys(CacheAfter(cache, kind, modules, count), kind, modules).keys ==
        if look.shared then KeysUsed(cache, kind, modules, count) else []
  {
  }

  // When as many values are read as there are keys, they are right if and only if the dictionary holds all the fields.
  lemma ValuesOfIff(m: map<string, string>, keys: seq<string>, values: seq<string>)
    requires |keys| == |values|
    ensures ValuesOf(m, keys) == Values(values) <==> Holds(m, Zip(keys, values))
  {
    var fs, r := Zip(keys, values), ValuesOf(m, keys);
    if Holds(m, fs) {
      forall k | k in keys ensures k in m {
        var i :| 0 <= i < |keys| && keys[i] == k;
        assert fs[i].key == k;
      }
      forall i | 0 <= i < |keys| ensures r.values[i] == values[i] {
        assert fs[i] == Field(keys[i], values[i], false);
      }
      assert r.values == values;
    }
    if r == Values(values) {
      assert forall i :: 0 <= i < |keys| ==> keys[i] in keys && fs[i] == Field(keys[i], values[i], false);
    }
  }

  // From any text: the values are read if and only if their count is right and the dictionary holds all the fields.
  lemma ReadIff(cache: Ontology, kind: string, modules: string -> Declared, values: seq<string>, id: string)
    ensures
      var after := CacheAfter(cache, kind, modules, |values|);
      IdToArray(after, kind, modules, id) == Values(values) <==>
        CountComesBack(cache, kind, modules, |values|) && Holds(MonikerMap(id), Zip(KeysUsed(cache, kind, modules, |values|), values))
  {
    var keys := KeysUsed(cache, kind, modules, |values|);
    KeysAfter(cache, kind, modules, |values|);
    if |keys| == |values| {
      ValuesOfIff(MonikerMap(id), keys, values);
    }
  }

  // For any values.
  lemma ValuesRoundTrip(cache: Ontology, kind: string, modules: string -> Declared, values: seq<string>)
    requires GoodKeys(KeysUsed(cache, kind, modules, |values|))
    ensures
      var after := CacheAfter(cache, kind, modules, |values|);
      IdToArray(after, kind, modules, IdOf(cache, kind, modules, values)) == Values(values) <==>
        ValuesComeBack(cache, kind, modules, values)
  {
    var keys := KeysUsed(cache, kind, modules, |values|);
    ReadIff(cache, kind, modules, values, IdOf(cache, kind, modules, values));
    ZipIsUnquoted(keys, values);
    ZipHasValues(keys, values);
    FieldsComeBackIff(Zip(keys, values));
  }

  // UriMake, ParseXid then EntityIdToArray, for any values.
  lemma PipelineRoundTrip(cache: Ontology, kind: string, modules: string -> Declared, machine: string, values: seq<string>)
    requires IsKind(kind) && IsLocalHost(machine) && GoodKeys(KeysUsed(cache, kind, modules, |values|))
    ensures
      var e := ParseXid(XidOf(cache, kind, modules, machine, values));
      var after := CacheAfter(cache, kind, modules, |values|);
      && e.kind == kind && e.host == machine
      && (IdToArray(after, e.kind, modules, e.id) == Values(values) <==> ValuesComeBack(cache, kind, modules, values) && AllReadable(values))
  {
    var id, fs := IdOf(cache, kind, modules, values), Zip(KeysUsed(cache, kind, modules, |values|), values);
    XidParts(cache, kind, modules, machine, values);
    XidRoundTrip(cache, kind, modules, machine, values);
    ReadIdIff(id);
    if ReadId(id) == id {
      ValuesRoundTrip(cache, kind, modules, values);
    } else {
      ZipIsUnquoted(KeysUsed(cache, kind, modules, |values|), values);
      ReadIff(cache, kind, modules, values, ReadId(id));
      ShorterLosesFields(ReadId(id), fs);
    }
  }

  // Of values without quotes, those come back which have no comma, no newline and no escape sequence.
  lemma PlainValuesComeBackIff(cache: Ontology, kind: string, modules: string -> Declared, values: seq<string>)
    requires forall i :: 0 <= i < |values| ==> '"' !in values[i]
    ensures ValuesComeBack(cache, kind, modules, values) <==>
      CountComesBack(cache, kind, modules, |values|) && forall i :: 0 <= i < |values| ==> ',' !in values[i] && '\n' !in values[i]
  {
    PlainAreWhole(values);
  }

  // One of the keys has no value.
  lemma MissingKey(keys: seq<string>, values: seq<string>)
    requires GoodKeys(keys) && |values| < |keys| && AllWhole(values)
    ensures ValuesOf(MonikerMap(Join(PrintFields(Zip(keys, values)), ",")), keys).KeyError?
  {
    var fs := Zip(keys, values);
    ZipIsUnquoted(keys, values);
    ZipHasValues(keys, values);
    AreWordsIff(fs);
    WordsOfFields(fs);
    FieldsToMapIs(fs);
    var k := keys[|values|];
    assert k in keys && k !in FieldsToMap(fs);
  }

  // Extending the shared list in place has a price: the identifiers made with the declared keys
  // cannot be read any more.
  lemma ExtensionBreaksOlderIds(cache: Ontology, kind: string, modules: string -> Declared, older: seq<string>, values: seq<string>)
    requires kind in cache && |older| == |cache[kind]| < |values|
    requires GoodKeys(KeysUsed(cache, kind, modules, |values|)) && AllWhole(older)
    ensures IdToArray(cache, kind, modules, IdOf(cache, kind, modules, older)) == Values(older)
    ensures IdToArray(CacheAfter(cache, kind, modules, |values|), kind, modules, IdOf(cache, kind, modules, older)).KeyError?
  {
    var keys, all := cache[kind], KeysUsed(cache, kind, modules, |values|);
    FirstKeysAreGood(keys, FakeKeys(|keys|, |values|));
    NoFakeKeys(cache, kind, modules, |older|);
    ValuesRoundTrip(cache, kind, modules, older);
    assert Zip(keys, older) == Zip(all, older);
    MissingKey(all, older);
  }

  // As many values as declared keys change nothing.
  lemma NoFakeKeys(cache: Ontology, kind: string, modules: string -> Declared, count: nat)
    requires kind in cache && count == |cache[kind]|
    ensures KeysUsed(cache, kind, modules, count) == cache[kind] && CacheAfter(cache, kind, modules, count) == cache
  {
    var keys := cache[kind];
    assert FakeKeys(|keys|, count) == [] && keys + [] == keys;
    assert cache[kind := keys] == cache;
  }

  lemma FirstKeysAreGood(keys: seq<string>, more: seq<string>)
    requires GoodKeys(keys + more)
    ensures GoodKeys(keys)
  {
    var all := keys + more;
    assert forall i :: 0 <= i < |keys| ==> all[i] == keys[i];
    assert forall k :: k in keys ==> k in all;
  }
}
