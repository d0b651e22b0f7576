/** lib_event: events are appended to the files of their objects, and read back once. */
module Events {
  import opened Text
  import opened Collections

  // ---- events ----

  // The JSON data of an event: a text, or an object with its attributes.
  datatype Json = Str(text: string) | Dict(attributes: map<string, string>)

  // Any of the three parts may be missing.
  datatype Event = Event(subj: Option<Json>, pred: Option<string>, obj: Option<Json>)

  datatype Path = Path(dir: string, name: string)

  const ENTITY_TYPE := "entity_type"
  const EXTENSION := ".events"

  // ---- file names ----

  predicate IsValidChar(c: char)
  {
    'a' <= c <= 'z' || 'A' <= c <= 'Z' || '0' <= c <= '9' || c in ",=-_.() "
  }

  function StringToFileName(s: string): (r: string)
    ensures |r| <= |s|
    ensures forall k :: 0 <= k < |r| ==> IsValidChar(r[k]) && r[k] != ' '
  {
    if s == "" then ""
    else
      var c := if s[0] in "/\\ " then '_' else s[0];
      (if IsValidChar(c) then [c] else []) + StringToFileName(s[1..])
  }

  function JoinIds(keys: seq<string>, attributes: map<string, string>, delim: string): string
    requires forall k :: k in keys ==> k in attributes
  {
    if keys == [] then ""
    else delim + keys[0] + "=" + attributes[keys[0]] + JoinIds(keys[1..], attributes, ",")
  }

  function Truncated(s: string): (r: string)
    ensures |r| <= 240
  {
    if |s| > 240 then s[..240] else s
  }

  function LongName(entityType: string, keys: seq<string>, attributes: map<string, string>): string
    requires forall k :: k in keys ==> k in attributes
  {
    entityType + JoinIds(keys, attributes, ".")
  }

  function FileName(entityType: string, keys: seq<string>, attributes: map<string, string>): string
    requires forall k :: k in keys ==> k in attributes
  {
    StringToFileName(Truncated(LongName(entityType, keys, attributes))) + EXTENSION
  }

  // Retrieval lists every file with this extension; the name is a plain one, and not too long for Windows.
  lemma WrittenIsFound(entityType: string, keys: seq<string>, attributes: map<string, string>)
    requires forall k :: k in keys ==> k in attributes
    ensures
      var name := FileName(entityType, keys, attributes);
      EndsWith(name, EXTENSION) && |name| <= 240 + |EXTENSION| && (forall k :: 0 <= k < |name| ==> IsValidChar(name[k]))
  {
    var base := StringToFileName(Truncated(LongName(entityType, keys, attributes)));
    var name := base + EXTENSION;
    assert name[|base|..] == EXTENSION;
  }

  // ---- which objects share a file ----

  predicate IsSeparator(c: char) { c in "/\\ " }

  // The characters which are not dropped.
  predicate IsKept(c: char) { IsSeparator(c) || IsValidChar(c) }

  function Kept(s: string): (r: string)
    ensures forall k :: 0 <= k < |r| ==> IsKept(r[k])
    ensures (forall k :: 0 <= k < |s| ==> IsKept(s[k])) ==> r == s
  {
    if s == "" then "" else
      assert s == [s[0]] + s[1..];
      (if IsKept(s[0]) then [s[0]] else []) + Kept(s[1..])
  }

  function Cleaned(c: char): char { if IsSeparator(c) then '_' else c }

  // Separators and underscores all look the same.
  ghost predicate LooksLike(x: string, y: string)
  {
    |x| == |y| && forall k :: 0 <= k < |x| ==> x[k] == y[k] || (Cleaned(x[k]) == '_' && Cleaned(y[k]) == '_')
  }

  lemma {:induction false} NameOfKept(s: string)
    ensures
      var kept := Kept(s);
      && |StringToFileName(s)| == |kept|
      && forall k :: 0 <= k < |kept| ==> StringToFileName(s)[k] == Cleaned(kept[k])
  {
    if s != "" {
      NameOfKept(s[1..]);
      var c := Cleaned(s[0]);
      assert IsValidChar(c) <==> IsKept(s[0]);
      assert StringToFileName(s) == (if IsValidChar(c) then [c] else []) + StringToFileName(s[1..]);
    }
  }

  // Exactly which texts become the same name.
  lemma SameNameIff(x: string, y: string)
    ensures StringToFileName(x) == StringToFileName(y) <==> LooksLike(Kept(x), Kept(y))
  {
    NameOfKept(x);
    NameOfKept(y);
    var a, b := StringToFileName(x), StringToFileName(y);
    assert a == b <==> |a| == |b| && forall k :: 0 <= k < |a| ==> a[k] == b[k];
  }

  // Two objects of a class have the same file if and only if what is kept of their names looks the same.
  lemma SameFileIff(entityType: string, keys: seq<string>, a: map<string, string>, b: map<string, string>)
    requires forall k :: k in keys ==> k in a && k in b
    ensures FileName(entityType, keys, a) == FileName(entityType, keys, b) <==>
      LooksLike(Kept(Truncated(LongName(entityType, keys, a))), Kept(Truncated(LongName(entityType, keys, b))))
  {
    var x, y := Truncated(LongName(entityType, keys, a)), Truncated(LongName(entityType, keys, b));
    SameNameIff(x, y);
    if FileName(entityType, keys, a) == FileName(entityType, keys, b) {
      SameEnd(StringToFileName(x), StringToFileName(y), EXTENSION);
    }
  }

  // In particular, for short names where nothing is dropped.
  lemma SameShortNameIff(entityType: string, keys: seq<string>, a: map<string, string>, b: map<string, string>)
    requires forall k :: k in keys ==> k in a && k in b
    requires
      var x, y := LongName(entityType, keys, a), LongName(entityType, keys, b);
      && |x| <= 240 && |y| <= 240
      && (forall k :: 0 <= k < |x| ==> IsKept(x[k])) && (forall k :: 0 <= k < |y| ==> IsKept(y[k]))
    ensures FileName(entityType, keys, a) == FileName(entityType, keys, b) <==>
      LooksLike(LongName(entityType, keys, a), LongName(entityType, keys, b))
  {
    SameFileIff(entityType, keys, a, b);
  }

  lemma SameEnd(a: string, b: string, end: string)
    requires a + end == b + end
    ensures a == b
  {
    assert |a| == |b|;
    assert (a + end)[..|a|] == a && (b + end)[..|b|] == b;
  }

  lemma ValueIsRead(a: string, b: string, more: string, others: string)
    requires ',' !in a && ',' !in b && a + more == b + others
    requires (more != "" ==> more[0] == ',') && (others != "" ==> others[0] == ',')
    ensures a == b && more == others
  {
    assert Without(a, ",") && Without(b, ",");
    SpanAt(a, more, ",");
    SpanAt(b, others, ",");
    assert (a + more)[..|a|] == a && (b + others)[..|b|] == b;
    assert (a + more)[|a|..] == more && (b + others)[|b|..] == others;
  }

  // The names of the attributes are the same, so are the values.
  lemma {:induction false} IdsDetermineValues(keys: seq<string>, a: map<string, string>, b: map<string, string>, delim: string)
    requires forall k :: k in keys ==> k in a && k in b && ',' !in a[k] && ',' !in b[k]
    requires JoinIds(keys, a, delim) == JoinIds(keys, b, delim)
    ensures forall k :: k in keys ==> a[k] == b[k]
  {
    if keys != [] {
      var start, key := delim + keys[0] + "=", keys[0];
      var more, others := JoinIds(keys[1..], a, ","), JoinIds(keys[1..], b, ",");
      assert key in keys && forall k :: k in keys[1..] ==> k in keys;
      SamePrefix(start, a[key], more, b[key], others);
      ValueIsRead(a[key], b[key], more, others);
      IdsDetermineValues(keys[1..], a, b, ",");
      assert forall k :: k in keys ==> k == key || k in keys[1..];
    }
  }

  lemma SamePrefix(start: string, a: string, more: string, b: string, others: string)
    requires start + a + more == start + b + others
    ensures a + more == b + others
  {
    assert (start + a + more)[|start|..] == a + more;
    assert (start + b + others)[|start|..] == b + others;
  }

  ghost predicate IsPlain(s: string) { forall k :: 0 <= k < |s| ==> IsValidChar(s[k]) && Cleaned(s[k]) != '_' }

  // So each object has its own file when the names are short, and made of valid characters but
  // spaces and underscores, with no comma in a value.
  lemma OneFileForEachObject(entityType: string, keys: seq<string>, a: map<string, string>, b: map<string, string>)
    requires forall k :: k in keys ==> k in a && k in b && ',' !in a[k] && ',' !in b[k]
    requires IsPlain(LongName(entityType, keys, a)) && |LongName(entityType, keys, a)| <= 240
    requires IsPlain(LongName(entityType, keys, b)) && |LongName(entityType, keys, b)| <= 240
    ensures FileName(entityType, keys, a) == FileName(entityType, keys, b) <==> forall k :: k in keys ==> a[k] == b[k]
  {
    SameShortNameIff(entityType, keys, a, b);
    if FileName(entityType, keys, a) == FileName(entityType, keys, b) {
      assert LongName(entityType, keys, a) == LongName(entityType, keys, b);
      SamePrefix(entityType, JoinIds(keys, a, "."), "", JoinIds(keys, b, "."), "");
      assert JoinIds(keys, a, ".") + "" == JoinIds(keys, a, ".") && JoinIds(keys, b, ".") + "" == JoinIds(keys, b, ".");
      IdsDetermineValues(keys, a, b, ".");
    }
    if forall k :: k in keys ==> a[k] == b[k] {
      SameValuesSameIds(keys, a, b, ".");
    }
  }

  lemma {:induction false} SameValuesSameIds(keys: seq<string>, a: map<string, string>, b: map<string, string>, delim: string)
    requires forall k :: k in keys ==> k in a && k in b && a[k] == b[k]
    ensures JoinIds(keys, a, delim) == JoinIds(keys, b, delim)
  {
    if keys != [] {
      assert forall k :: k in keys[1..] ==> k in keys;
      SameValuesSameIds(keys[1..], a, b, ",");
    }
  }

  // ---- three ways to share a file ----

  // Values which look the same.
  lemma LookAlikesShareFile(entityType: string, keys: seq<string>, a: map<string, string>, b: map<string, string>)
    requires forall k :: k in keys ==> k in a && k in b && LooksLike(a[k], b[k])
    ensures FileName(entityType, keys, a) == FileName(entityType, keys, b)
  {
    var x, y := LongName(entityType, keys, a), LongName(entityType, keys, b);
    IdsLookAlike(keys, a, b, ".");
    LooksLikeAfter(entityType, JoinIds(keys, a, "."), JoinIds(keys, b, "."));
    SameLook(Truncated(x), Truncated(y));
  }

  lemma {:induction false} SameLook(x: string, y: string)
    requires LooksLike(x, y)
    ensures StringToFileName(x) == StringToFileName(y)
  {
    if x != "" {
      SameLook(x[1..], y[1..]);
    }
  }

  lemma LooksLikeAfter(start: string, x: string, y: string)
    requires LooksLike(x, y)
    ensures LooksLike(start + x, start + y)
  {
  }

  lemma {:induction false} IdsLookAlike(keys: seq<string>, a: map<string, string>, b: map<string, string>, delim: string)
    requires forall k :: k in keys ==> k in a && k in b && LooksLike(a[k], b[k])
    ensures LooksLike(JoinIds(keys, a, delim), JoinIds(keys, b, delim))
  {
    if keys != [] {
      var key := keys[0];
      assert key in keys && forall k :: k in keys[1..] ==> k in keys;
      IdsLookAlike(keys[1..], a, b, ",");
      LooksLikeAfter(delim + key + "=", a[key], b[key]);
      var more, others := JoinIds(keys[1..], a, ","), JoinIds(keys[1..], b, ",");
      var x, y := delim + key + "=" + a[key], delim + key + "=" + b[key];
      assert forall k :: 0 <= k < |more| ==> (x + more)[|x| + k] == more[k] && (y + others)[|x| + k] == others[k];
    }
  }

  // Long names which differ after 240 characters only.
  lemma LongNamesShareFile(entityType: string, keys: seq<string>, a: map<string, string>, b: map<string, string>)
    requires forall k :: k in keys ==> k in a && k in b
    requires
      var x, y := LongName(entityType, keys, a), LongName(entityType, keys, b);
      |x| >= 240 && |y| >= 240 && x[..240] == y[..240]
    ensures FileName(entityType, keys, a) == FileName(entityType, keys, b)
  {
    assert Truncated(LongName(entityType, keys, a)) == LongName(entityType, keys, a)[..240];
    assert Truncated(LongName(entityType, keys, b)) == LongName(entityType, keys, b)[..240];
  }

  // A comma, then what looks like the next attribute.
  lemma CommasShareFile(entityType: string, key: string, next: string, x: string, y: string, z: string, a: map<string, string>, b: map<string, string>)
    requires key in a && next in a && key in b && next in b
    requires a[key] == x && a[next] == y + ("," + next + "=" + z)
    requires b[key] == x + ("," + next + "=" + y) && b[next] == z
    ensures FileName(entityType, [key, next], a) == FileName(entityType, [key, next], b)
  {
    var sep, start := "," + next + "=", "." + key + "=";
    TwoIds(key, next, a);
    TwoIds(key, next, b);
    Associative(sep, y, sep + z);
    Associative(start, x, sep + y);
    Associative(start + x, sep + y, sep + z);
    assert LongName(entityType, [key, next], a) == LongName(entityType, [key, next], b);
  }

  lemma TwoIds(key: string, next: string, m: map<string, string>)
    requires key in m && next in m
    ensures JoinIds([key, next], m, ".") == "." + key + "=" + m[key] + ("," + next + "=" + m[next])
  {
    assert [key, next][1..] == [next] && [next][1..] == [];
    assert JoinIds([], m, ",") == "";
    assert JoinIds([next], m, ",") == "," + next + "=" + m[next];
  }

  // What is in a file, if it exists.
  function LinesOf(files: map<Path, seq<Event>>, p: Path): seq<Event>
  {
    if p in files then files[p] else []
  }

  // ---- which objects have a file ----

  // The attributes of each class which are in the names of its objects.
  datatype Ontology = Ontology(keys: string -> seq<string>)
  {
    predicate IsEntity(v: Json)
    {
      && v.Dict? && ENTITY_TYPE in v.attributes
      && (forall k :: k in keys(v.attributes[ENTITY_TYPE]) ==> k in v.attributes)
    }

    function FileOf(v: Json): Path
      requires IsEntity(v)
    {
      var entityType := v.attributes[ENTITY_TYPE];
      Path(entityType, FileName(entityType, keys(entityType), v.attributes))
    }

    // The lines which are added to a file for one part of the event.
    function LinesFor(part: Option<Json>, e: Event, p: Path): seq<Event>
    {
      if part.Some? && IsEntity(part.value) && FileOf(part.value) == p then [e] else []
    }

    lemma AppendedIs(files: map<Path, seq<Event>>, v: Json, e: Event)
      requires IsEntity(v)
      ensures
        var after := files[FileOf(v) := LinesOf(files, FileOf(v)) + [e]];
        forall p :: LinesOf(after, p) == LinesOf(files, p) + LinesFor(Some(v), e, p)
    {
    }

    // An event which can be read back: its three parts are there, and name their objects completely.
    predicate Complete(e: Event) { IsStored(e) && e.pred.Some? }

    // A store which does not fail; the predicate is not looked at.
    predicate IsStored(e: Event)
    {
      && e.subj.Some? && IsEntity(e.subj.value)
      && e.obj.Some? && (e.obj.value.Dict? ==> IsEntity(e.obj.value))
    }

    // What a store adds to a file: nothing for the object if the subject was refused.
    function Copies(e: Event, p: Path): seq<Event>
    {
      if e.subj.Some? && IsEntity(e.subj.value)
      then LinesFor(e.subj, e, p) + LinesFor(e.obj, e, p)
      else []
    }

    function AllCopies(events: seq<Event>, p: Path): seq<Event>
    {
      if events == [] then [] else AllCopies(events[..|events| - 1], p) + Copies(events[|events| - 1], p)
    }

    // What the files become when some events are stored.
    ghost predicate IsAdded(before: map<Path, seq<Event>>, events: seq<Event>, after: map<Path, seq<Event>>)
    {
      forall p :: LinesOf(after, p) == LinesOf(before, p) + AllCopies(events, p)
    }

    lemma OneMoreEvent(before: map<Path, seq<Event>>, events: seq<Event>, after: map<Path, seq<Event>>, e: Event, last: map<Path, seq<Event>>)
      requires IsAdded(before, events, after) && (forall p :: LinesOf(last, p) == LinesOf(after, p) + Copies(e, p))
      ensures IsAdded(before, events + [e], last)
    {
      assert (events + [e])[..|events|] == events;
      forall p ensures LinesOf(last, p) == LinesOf(before, p) + AllCopies(events + [e], p) {
        assert LinesOf(before, p) + AllCopies(events, p) + Copies(e, p) == LinesOf(before, p) + (AllCopies(events, p) + Copies(e, p));
      }
    }

    // ---- one file ----

    predicate AllComplete(lines: seq<Event>) { forall k :: 0 <= k < |lines| ==> Complete(lines[k]) }

    // The lines before the first one which cannot be read.
    function Readable(lines: seq<Event>): (r: seq<Event>)
      ensures r <= lines && AllComplete(r)
      ensures |r| < |lines| ==> !Complete(lines[|r|])
      ensures r == lines <==> AllComplete(lines)
    {
      if lines == [] || !Complete(lines[0]) then []
      else
        assert AllComplete(lines) <==> AllComplete(lines[1..]) by {
          assert forall k :: 1 <= k < |lines| ==> lines[k] == lines[1..][k - 1];
        }
        [lines[0]] + Readable(lines[1..])
    }

    lemma {:induction false} ReadableIs(lines: seq<Event>, i: nat)
      requires i < |lines| && !Complete(lines[i]) && AllComplete(lines[..i])
      ensures Readable(lines) == lines[..i] && !AllComplete(lines)
    {
      if i > 0 {
        var before, rest := lines[..i], lines[1..][..i - 1];
        assert Complete(before[0]) && before == [lines[0]] + rest;
        assert forall k :: 0 <= k < |rest| ==> rest[k] == before[k + 1];
        ReadableIs(lines[1..], i - 1);
      }
    }

    function Repeat(lines: seq<Event>, n: nat): (r: seq<Event>)
      ensures |r| == n * |lines|
    {
      if n == 0 then [] else Repeat(lines, n - 1) + lines
    }

    // Three attempts are made on a file which cannot be read.
    function Delivered(lines: seq<Event>): seq<Event>
    {
      if AllComplete(lines) then lines else Repeat(Readable(lines), 3)
    }

    function Remaining(lines: seq<Event>): seq<Event>
    {
      if AllComplete(lines) then [] else lines
    }

    lemma AllRead(before: map<Path, seq<Event>>, after: map<Path, seq<Event>>)
      requires IsReadBut(before, after, {})
      ensures forall p :: LinesOf(after, p) == Remaining(LinesOf(before, p))
    {
      assert AllComplete([]);
    }

    // All the files were read, but some.
    ghost predicate IsReadBut(before: map<Path, seq<Event>>, after: map<Path, seq<Event>>, todo: set<Path>)
    {
      after.Keys == before.Keys && forall p :: p in after ==> after[p] == if p in todo then before[p] else Remaining(before[p])
    }
  }

  // ---- the history of one file ----

  datatype Op = Put(event: Event) | Get

  datatype History = History(pending: seq<Event>, delivered: seq<Event>, stored: seq<Event>)

  // What one file holds and has given, after some operations.
  function After(ontology: Ontology, ops: seq<Op>, p: Path): History
  {
    if ops == [] then History([], [], [])
    else
      var h := After(ontology, ops[..|ops| - 1], p);
      match ops[|ops| - 1]
      case Put(e) => History(h.pending + ontology.Copies(e, p), h.delivered, h.stored + ontology.Copies(e, p))
      case Get => History(ontology.Remaining(h.pending), h.delivered + ontology.Delivered(h.pending), h.stored)
  }

  // No retrieval finds a line which cannot be read after others which can.
  ghost predicate NeverBlockedLate(ontology: Ontology, ops: seq<Op>, p: Path)
  {
    ops != [] ==>
      var init := ops[..|ops| - 1];
      && NeverBlockedLate(ontology, init, p)
      && (ops[|ops| - 1].Get? ==> NotBlockedLate(ontology, After(ontology, init, p).pending))
  }

  ghost predicate NotBlockedLate(ontology: Ontology, pending: seq<Event>)
  {
    ontology.AllComplete(pending) || !ontology.Complete(pending[0])
  }

  lemma {:induction false} RepeatComplete(ontology: Ontology, lines: seq<Event>, n: nat)
    requires ontology.AllComplete(lines)
    ensures ontology.AllComplete(ontology.Repeat(lines, n))
  {
    if n > 0 {
      RepeatComplete(ontology, lines, n - 1);
    }
  }

  // What was delivered, then what is pending, are what was stored, in order.
  ghost predicate IsConserved(h: History) { h.delivered + h.pending == h.stored }

  function Excess(h: History): int { |h.delivered| + |h.pending| - |h.stored| }

  // Nothing is ever lost.
  ghost predicate NothingIsLost(h: History) { multiset(h.stored) <= multiset(h.delivered) + multiset(h.pending) }

  // They are, if and only if no retrieval found a line which cannot be read after other lines:
  // these are delivered three times, each time, and none is ever lost.
  lemma {:induction false} Conservation(ontology: Ontology, ops: seq<Op>, p: Path)
    ensures
      var h := After(ontology, ops, p);
      && NothingIsLost(h)
      && Excess(h) >= 0
      && (IsConserved(h) <==> Excess(h) == 0)
      && (IsConserved(h) <==> NeverBlockedLate(ontology, ops, p))
  {
    if ops != [] {
      var n := |ops| - 1;
      Conservation(ontology, ops[..n], p);
      var h := After(ontology, ops[..n], p);
      if ops[n].Put? {
        MorePending(h.delivered, h.pending, h.stored, ontology.Copies(ops[n].event, p));
      } else {
        GetConserves(ontology, h);
      }
    }
  }

  lemma GetConserves(ontology: Ontology, h: History)
    requires NothingIsLost(h) && Excess(h) >= 0 && (IsConserved(h) <==> Excess(h) == 0)
    ensures
      var h1 := History(ontology.Remaining(h.pending), h.delivered + ontology.Delivered(h.pending), h.stored);
      && NothingIsLost(h1) && Excess(h1) >= 0 && (IsConserved(h1) <==> Excess(h1) == 0)
      && (IsConserved(h1) <==> IsConserved(h) && NotBlockedLate(ontology, h.pending))
  {
    var given := ontology.Delivered(h.pending);
    if ontology.AllComplete(h.pending) {
      assert h.delivered + h.pending + [] == h.delivered + h.pending;
    } else {
      var readable := ontology.Readable(h.pending);
      assert |given| == 3 * |readable|;
      assert readable == [] <==> !ontology.Complete(h.pending[0]);
      if readable == [] {
        assert h.delivered + given == h.delivered;
      }
    }
  }

  lemma MorePending(delivered: seq<Event>, pending: seq<Event>, stored: seq<Event>, copies: seq<Event>)
    ensures delivered + (pending + copies) == stored + copies <==> delivered + pending == stored
  {
    assert delivered + (pending + copies) == delivered + pending + copies;
    if delivered + pending + copies == stored + copies {
      assert (delivered + pending + copies)[..|stored|] == (stored + copies)[..|stored|];
    }
  }

  // Lines which cannot be read never leave, the other ones only are delivered.
  lemma {:induction false} IncompleteStay(ontology: Ontology, ops: seq<Op>, p: Path)
    ensures
      var h := After(ontology, ops, p);
      (ontology.AllComplete(h.stored) <==> ontology.AllComplete(h.pending)) && ontology.AllComplete(h.delivered)
  {
    if ops != [] {
      var n := |ops| - 1;
      IncompleteStay(ontology, ops[..n], p);
      var h := After(ontology, ops[..n], p);
      if ops[n].Put? {
        var copies := ontology.Copies(ops[n].event, p);
        CompleteConcat(ontology, h.stored, copies);
        CompleteConcat(ontology, h.pending, copies);
      } else {
        CompleteConcat(ontology, h.delivered, ontology.Delivered(h.pending));
        RepeatComplete(ontology, ontology.Readable(h.pending), 3);
      }
    }
  }

  lemma CompleteConcat(ontology: Ontology, a: seq<Event>, b: seq<Event>)
    ensures ontology.AllComplete(a + b) <==> ontology.AllComplete(a) && ontology.AllComplete(b)
  {
    if ontology.AllComplete(a + b) {
      assert forall k :: 0 <= k < |a| ==> (a + b)[k] == a[k];
      assert forall k :: 0 <= k < |b| ==> (a + b)[|a| + k] == b[k];
    }
  }

  // A line which cannot be read stays for ever, and the lines around it as well.
  lemma {:induction false} BlockedForEver(ontology: Ontology, ops: seq<Op>, more: seq<Op>, p: Path)
    requires !ontology.AllComplete(After(ontology, ops, p).pending)
    ensures After(ontology, ops, p).pending <= After(ontology, ops + more, p).pending
  {
    if more == [] {
      assert ops + more == ops;
    } else {
      var n := |more| - 1;
      BlockedForEver(ontology, ops, more[..n], p);
      assert (ops + more)[..|ops + more| - 1] == ops + more[..n];
      var h := After(ontology, ops + more[..n], p);
      var before := After(ontology, ops, p).pending;
      var k :| 0 <= k < |before| && !ontology.Complete(before[k]);
      assert h.pending[k] == before[k];
    }
  }

  // Main result: after a retrieval, everything was delivered once and in order, if and only if each event stored
  // in the file was complete.
  lemma DeliveredIffComplete(ontology: Ontology, ops: seq<Op>, p: Path)
    requires ops != [] && ops[|ops| - 1].Get?
    ensures
      var h := After(ontology, ops, p);
      && (h.delivered == h.stored <==> ontology.AllComplete(h.stored))
      && (h.pending == [] <==> ontology.AllComplete(h.stored))
  {
    var h := After(ontology, ops, p);
    IncompleteStay(ontology, ops, p);
    if ontology.AllComplete(h.stored) {
      IncompleteStay(ontology, ops[..|ops| - 1], p);
      assert h.pending == [];
      Conservation(ontology, ops, p);
      CompleteNeverBlocks(ontology, ops, p);
      assert IsConserved(h) && h.delivered + [] == h.delivered;
    }
  }

  lemma {:induction false} CompleteNeverBlocks(ontology: Ontology, ops: seq<Op>, p: Path)
    requires ontology.AllComplete(After(ontology, ops, p).stored)
    ensures NeverBlockedLate(ontology, ops, p)
  {
    if ops != [] {
      var n := |ops| - 1;
      var h := After(ontology, ops[..n], p);
      if ops[n].Put? {
        CompleteConcat(ontology, h.stored, ontology.Copies(ops[n].event, p));
      }
      IncompleteStay(ontology, ops[..n], p);
      CompleteNeverBlocks(ontology, ops[..n], p);
    }
  }

  // Storing complete events only is enough, for all the files.
  lemma {:induction false} CompleteEventsAreStored(ontology: Ontology, ops: seq<Op>, p: Path)
    requires forall i :: 0 <= i < |ops| && ops[i].Put? ==> ontology.Complete(ops[i].event)
    ensures ontology.AllComplete(After(ontology, ops, p).stored)
  {
    if ops != [] {
      var n := |ops| - 1;
      CompleteEventsAreStored(ontology, ops[..n], p);
      if ops[n].Put? {
        CompleteConcat(ontology, After(ontology, ops[..n], p).stored, ontology.Copies(ops[n].event, p));
      }
    }
  }

  // An event with no predicate, or whose object has not all its attributes, is stored: and nothing can be delivered from the file.
  lemma IncompleteIsStored(ontology: Ontology, e: Event)
    requires e.subj.Some? && ontology.IsEntity(e.subj.value) && !ontology.Complete(e)
    ensures
      var h := After(ontology, [Put(e), Get], ontology.FileOf(e.subj.value));
      h.stored != [] && h.pending == h.stored && h.delivered == []
  {
    var p := ontology.FileOf(e.subj.value);
    var ops := [Put(e), Get];
    assert ops[..1] == [Put(e)] && [Put(e)][..0] == [];
    var lines := ontology.Copies(e, p);
    assert lines[0] == e && [] + lines == lines;
    assert After(ontology, [Put(e)], p) == History(lines, [], lines);
    assert ontology.Readable(lines) == [];
    assert ontology.Repeat([], 3) == [];
  }

  // ---- all the files ----

  ghost predicate IsListing(order: seq<Path>, paths: set<Path>)
  {
    && (forall p :: p in order <==> p in paths)
    && (forall i, j :: 0 <= i < j < |order| ==> order[i] != order[j])
  }

  // What the files give, one after the other.
  ghost function AllDelivered(ontology: Ontology, files: map<Path, seq<Event>>, order: seq<Path>): seq<Event>
    requires forall p :: p in order ==> p in files
  {
    if order == [] then []
    else
      AllDelivered(ontology, files, order[..|order| - 1]) + ontology.Delivered(files[order[|order| - 1]])
  }

  lemma OneMoreFile(ontology: Ontology, files: map<Path, seq<Event>>, order: seq<Path>, p: Path, paths: set<Path>)
    requires (forall q :: q in order ==> q in files) && p in files && p !in paths && IsListing(order, paths)
    ensures AllDelivered(ontology, files, order + [p]) == AllDelivered(ontology, files, order) + ontology.Delivered(files[p])
    ensures IsListing(order + [p], paths + {p})
  {
    assert (order + [p])[..|order|] == order;
    assert forall q :: q in order + [p] <==> q in order || q == p;
  }

  // What the files give after some operations.
  ghost function AllGiven(ontology: Ontology, ops: seq<Op>, order: seq<Path>): seq<Event>
  {
    if order == [] then []
    else
      AllGiven(ontology, ops, order[..|order| - 1]) + ontology.Delivered(After(ontology, ops, order[|order| - 1]).pending)
  }

  lemma {:induction false} GivenIsDelivered(ontology: Ontology, ops: seq<Op>, files: map<Path, seq<Event>>, order: seq<Path>)
    requires forall p :: p in order ==> p in files && files[p] == After(ontology, ops, p).pending
    ensures AllDelivered(ontology, files, order) == AllGiven(ontology, ops, order)
  {
    if order != [] {
      assert forall p :: p in order[..|order| - 1] ==> p in order;
      GivenIsDelivered(ontology, ops, files, order[..|order| - 1]);
    }
  }

  // A retrieval after some operations gives, once each, all the files which are not empty.
  ghost predicate IsRetrieval(ontology: Ontology, ops: seq<Op>, order: seq<Path>, out: seq<Event>)
  {
    && NoDup(order) && (forall p :: After(ontology, ops, p).pending != [] ==> p in order)
    && out == AllGiven(ontology, ops, order)
  }

  // What an operation gives, after some others: nothing when it stores.
  ghost predicate IsStep(ontology: Ontology, ops: seq<Op>, op: Op, order: seq<Path>, out: seq<Event>)
  {
    if op.Get? then IsRetrieval(ontology, ops, order, out) else out == []
  }

  // ---- the program ----

  class EventStore {
    const ontology: Ontology
    var files: map<Path, seq<Event>>

    // Every file which is written is one which retrieval lists.
    ghost predicate Valid()
      reads this
    {
      forall p :: p in files ==> EndsWith(p.name, EXTENSION)
    }

    function Pending(p: Path): seq<Event>
      reads this`files
    {
      LinesOf(files, p)
    }

    constructor (ontology: Ontology)
      ensures Valid() && this.ontology == ontology && files == map[]
    {
      this.ontology := ontology;
      files := map[];
    }

    // Whether the object has a file.
    method AddEventToObject(theObject: Json, jsonData: Event) returns (ok: bool)
      requires Valid()
      modifies this`files
      ensures Valid() && ok == ontology.IsEntity(theObject)
      ensures forall p :: Pending(p) == old(Pending(p)) + ontology.LinesFor(Some(theObject), jsonData, p)
    {
      ok := ontology.IsEntity(theObject);
      if ok {
        var path := ontology.FileOf(theObject);
        var entityType := theObject.attributes[ENTITY_TYPE];
        WrittenIsFound(entityType, ontology.keys(entityType), theObject.attributes);
        ontology.AppendedIs(files, theObject, jsonData);
        files := files[path := Pending(path) + [jsonData]];
      }
    }

    // A missing part, or one which does not name an object, stops the store there: the subject may be stored already.
    method DataStore(jsonData: Event) returns (ok: bool)
      requires Valid()
      modifies this`files
      ensures Valid()
      ensures ok <==> ontology.IsStored(jsonData)
      ensures forall p :: Pending(p) == old(Pending(p)) + ontology.Copies(jsonData, p)
    {
      if jsonData.subj.None? {
        return false;
      }
      ok := AddEventToObject(jsonData.subj.value, jsonData);
      if !ok || jsonData.obj.None? {
        return false;
      }
      if jsonData.obj.value.Dict? {
        ok := AddEventToObject(jsonData.obj.value, jsonData);
      }
    }

    // One event after the other, whatever happens to each.
    method DataStoreList(events: seq<Event>)
      requires Valid()
      modifies this`files
      ensures Valid() && ontology.IsAdded(old(files), events, files)
    {
      for i := 0 to |events|
        invariant Valid() && ontology.IsAdded(old(files), events[..i], files)
      {
        ghost var before := files;
        var _ := DataStore(events[i]);
        ontology.OneMoreEvent(old(files), events[..i], before, events[i], files);
        assert events[..i + 1] == events[..i] + [events[i]];
      }
      assert events[..|events|] == events;
    }

    // The lines are read again when one of them fails.
    method GetDataFromFile(path: Path) returns (out: seq<Event>)
      requires Valid() && path in files
      modifies this`files
      ensures Valid() && out == ontology.Delivered(old(files[path]))
      ensures files == old(files)[path := ontology.Remaining(old(files[path]))]
    {
      out := [];
      var maxTry := 3;
      var lines := files[path];
      while maxTry > 0
        invariant 0 <= maxTry <= 3 && files == old(files)
        invariant out == ontology.Repeat(ontology.Readable(lines), 3 - maxTry)
        invariant maxTry < 3 ==> !ontology.AllComplete(lines)
      {
        maxTry := maxTry - 1;
        var readable, ok := ReadLines(lines);
        out := out + readable;
        if ok {
          files := files[path := []];
          return;
        }
      }
      assert files == files[path := lines];
    }

    // The lines are given one by one, up to the first one which fails.
    method ReadLines(lines: seq<Event>) returns (out: seq<Event>, ok: bool)
      ensures out == ontology.Readable(lines) && (ok <==> ontology.AllComplete(lines))
    {
      out := [];
      for i := 0 to |lines|
        invariant out == lines[..i] && ontology.AllComplete(out)
      {
        if !ontology.Complete(lines[i]) {
          ontology.ReadableIs(lines, i);
          return out, false;
        }
        out := out + [lines[i]];
      }
      ok := true;
    }

    // Only the files with the extension are read: all of them have it.
    method DataOf(path: Path) returns (lines: seq<Event>)
      requires Valid() && path in files
      modifies this`files
      ensures Valid() && lines == ontology.Delivered(old(files[path]))
      ensures files == old(files)[path := ontology.Remaining(old(files[path]))]
    {
      lines := [];
      if EndsWith(path.name, EXTENSION) {
        lines := GetDataFromFile(path);
      }
    }

    // Every file is read, in some order; each gives what it can.
    method DataRetrieveAll() returns (out: seq<Event>, ghost order: seq<Path>)
      requires Valid()
      modifies this`files
      ensures Valid() && files.Keys == old(files.Keys)
      ensures IsListing(order, old(files.Keys)) && out == AllDelivered(ontology, old(files), order)
      ensures forall p :: Pending(p) == ontology.Remaining(old(Pending(p)))
    {
      out, order := [], [];
      ghost var files0 := files;
      var todo := files.Keys;
      while todo != {}
        invariant todo <= files.Keys && Valid() && IsReadUpTo(files0, order, todo, out)
        decreases todo
      {
        var path :| path in todo;
        out := OneMorePath(path, files0, order, todo, out);
        todo := todo - {path};
        order := order + [path];
      }
      assert files.Keys - todo == files.Keys;
      ontology.AllRead(files0, files);
    }

    // The files which are listed were read, and are all but some.
    ghost predicate IsReadUpTo(before: map<Path, seq<Event>>, order: seq<Path>, todo: set<Path>, out: seq<Event>)
      reads this`files
    {
      && ontology.IsReadBut(before, files, todo) && IsListing(order, files.Keys - todo)
      && (forall p :: p in order ==> p in before) && out == AllDelivered(ontology, before, order)
    }

    method OneMorePath(path: Path, ghost before: map<Path, seq<Event>>, ghost order: seq<Path>, ghost todo: set<Path>, out: seq<Event>)
        returns (more: seq<Event>)
      requires Valid() && path in todo && todo <= files.Keys && IsReadUpTo(before, order, todo, out)
      modifies this`files
      ensures Valid() && files.Keys == old(files.Keys)
      ensures IsReadUpTo(before, order + [path], todo - {path}, more)
    {
      OneMoreFile(ontology, before, order, path, files.Keys - todo);
      assert files.Keys - todo + {path} == files.Keys - (todo - {path});
      var lines := DataOf(path);
      more := out + lines;
    }

    // Any run: the files are those of the history of each one, and so is what each retrieval gives.
    method Run(ops: seq<Op>) returns (outs: seq<seq<Event>>, ghost orders: seq<seq<Path>>)
      requires Valid() && files == map[]
      modifies this`files
      ensures Valid() && IsAfter(ops)
      ensures |outs| == |orders| == |ops|
      ensures forall i :: 0 <= i < |ops| ==> IsStep(ontology, ops[..i], ops[i], orders[i], outs[i])
    {
      outs, orders := [], [];
      for i := 0 to |ops|
        invariant Valid() && IsAfter(ops[..i]) && |outs| == |orders| == i
        invariant forall k :: 0 <= k < i ==> IsStep(ontology, ops[..k], ops[k], orders[k], outs[k])
      {
        assert ops[..i + 1] == ops[..i] + [ops[i]];
        var out;
        ghost var order;
        out, order := Step(ops[..i], ops[i]);
        outs, orders := outs + [out], orders + [order];
      }
      assert ops[..|ops|] == ops;
    }

    ghost predicate IsAfter(ops: seq<Op>)
      reads this`files
    {
      forall p :: Pending(p) == After(ontology, ops, p).pending
    }

    method Step(ghost ops: seq<Op>, op: Op) returns (out: seq<Event>, ghost order: seq<Path>)
      requires Valid() && IsAfter(ops)
      modifies this`files
      ensures Valid() && IsAfter(ops + [op])
      ensures IsStep(ontology, ops, op, order, out)
    {
      assert (ops + [op])[..|ops|] == ops;
      out, order := [], [];
      match op {
        case Put(e) =>
          var _ := DataStore(e);
        case Get =>
          ghost var before := files;
          out, order := DataRetrieveAll();
          assert forall p :: p in before ==> before[p] == After(ontology, ops, p).pending;
          GivenIsDelivered(ontology, ops, before, order);
      }
    }
  }
}
