/** Reading back a printed bookmark file. */
module BookmarkTheorems {
  import opened Text
  import opened Collections
  import opened Bookmarks

  datatype Attr = Attr(key: string, value: string)

  // A link or a folder, with an optional description; a folder has a list of children.
  datatype Bookmark =
    | Site(attrs: seq<Attr>, title: string, description: string)
    | Folder(attrs: seq<Attr>, title: string, description: string, children: seq<Bookmark>)

  // ---- the printer ----

  function PrintAttrs(attrs: seq<Attr>): string
  {
    if attrs == [] then "" else PrintAttrs(attrs[..|attrs| - 1]) + " " + PrintAttr(attrs[|attrs| - 1])
  }

  function PrintAttr(a: Attr): string { a.key + (['='] + Quoted(a.value)) }

  function Quoted(value: string): string { ['"'] + value + ['"'] }

  function TagOf(b: Bookmark): string { if b.Site? then "A" else "H3" }

  function PrintTag(b: Bookmark): string
  {
    "<" + TagOf(b) + PrintAttrs(b.attrs) + ">" + b.title + ("</" + TagOf(b) + ">")
  }

  // A line: some indentation, a tag, the rest.
  function PrintLine(indent: string, tag: string, rest: string): string
  {
    indent + (['<'] + (tag + (['>'] + (rest + ['\n']))))
  }

  function Indent(level: nat): string { seq(4 * level, _ => ' ') }

  function Opening(level: nat): string { PrintLine(Indent(level), "DL", "<p>") }

  function Closing(level: nat): string { PrintLine(Indent(level), "/DL", "<p>") }

  function PrintBookmark(b: Bookmark, level: nat): seq<string>
    decreases b, 1
  {
    [PrintLine(Indent(level), "DT", PrintTag(b))]
    + (PrintDescription(b, level)
       + (if b.Site? then [] else [Opening(level)] + (PrintForest(b.children, level + 1) + [Closing(level)])))
  }

  function PrintDescription(b: Bookmark, level: nat): seq<string>
  {
    if b.description == "" then [] else [PrintLine(Indent(level), "DD", b.description)]
  }

  function PrintForest(bs: seq<Bookmark>, level: nat): seq<string>
    decreases bs
  {
    if bs == [] then [] else PrintBookmark(bs[0], level) + PrintForest(bs[1..], level)
  }

  // ---- what is read ----

  function DictOf(attrs: seq<Attr>): map<string, string>
  {
    if attrs == [] then map[] else DictOf(attrs[..|attrs| - 1])[attrs[|attrs| - 1].key := attrs[|attrs| - 1].value]
  }

  // The entry of a bookmark, for some way of reading its attributes.
  function EntryWith(b: Bookmark, dictOf: seq<Attr> -> map<string, string>): (e: Entry)
    ensures e.Entry?
    decreases b, 1
  {
    if b.Site? then Described(b, dictOf) else SetChildren(Described(b, dictOf), EntriesWith(b.children, dictOf))
  }

  function EntriesWith(bs: seq<Bookmark>, dictOf: seq<Attr> -> map<string, string>): (r: seq<Entry>)
    ensures |r| == |bs|
    decreases bs
  {
    if bs == [] then [] else [EntryWith(bs[0], dictOf)] + EntriesWith(bs[1..], dictOf)
  }

  function Titled(b: Bookmark, dictOf: seq<Attr> -> map<string, string>): (e: Entry)
    ensures e.Entry?
  {
    Entry(dictOf(b.attrs)[LABEL := b.title], [])
  }

  function Described(b: Bookmark, dictOf: seq<Attr> -> map<string, string>): (e: Entry)
    ensures e.Entry?
  {
    if b.description == "" then Titled(b, dictOf) else SetDescription(Titled(b, dictOf), b.description)
  }

  // The same forest.
  function EntriesFor(bs: seq<Bookmark>): (r: seq<Entry>)
    ensures |r| == |bs|
  {
    EntriesWith(bs, DictOf)
  }

  // ---- what can be printed ----

  ghost predicate GoodAttr(a: Attr)
  {
    a.key != "" && Without(a.key, "= >\n") && Without(a.value, ">\n")
  }

  ghost predicate NoSpaces(attrs: seq<Attr>) { forall i :: 0 <= i < |attrs| ==> ' ' !in attrs[i].value }

  ghost predicate Good(b: Bookmark)
    decreases b, 1
  {
    && (forall i :: 0 <= i < |b.attrs| ==> GoodAttr(b.attrs[i]))
    && Without(b.title, "<\n")
    && Without(b.description, "\n") && (b.description != "" ==> !IsSpace(b.description[0]) && !IsSpace(b.description[|b.description| - 1]))
    && (b.Folder? ==> AllGood(b.children))
  }

  // Some condition on all the attributes of a forest.
  ghost predicate AllHold(bs: seq<Bookmark>, p: seq<Attr> -> bool)
    decreases bs, 0
  {
    bs != [] ==> Holds(bs[0], p) && AllHold(bs[1..], p)
  }

  ghost predicate Holds(b: Bookmark, p: seq<Attr> -> bool)
    decreases b, 1
  {
    p(b.attrs) && (b.Folder? ==> AllHold(b.children, p))
  }

  ghost predicate AllGood(bs: seq<Bookmark>)
    decreases bs
  {
    bs != [] ==> Good(bs[0]) && AllGood(bs[1..])
  }

  // ---- lines ----

  lemma LineIsRead(indent: string, tag: string, rest: string)
    requires '<' !in indent && Without(tag, " \t>") && '\n' !in rest
    ensures TagAndRest(PrintLine(indent, tag, rest)) == (tag, rest)
  {
    Cut(indent, '<', tag + (['>'] + (rest + ['\n'])));
    TagEnds(tag, rest + ['\n']);
    LineEnds(rest);
  }

  lemma TagEnds(tag: string, more: string)
    requires Without(tag, " \t>")
    ensures
      var inside := tag + (['>'] + more);
      IndexOf(inside, '>') == |tag| && Span(inside, " \t>") == |tag| && inside[..|tag|] == tag && inside[|tag| + 1..] == more
  {
    assert '>' !in tag;
    Cut(tag, '>', more);
    SpanAt(tag, ['>'] + more, " \t>");
  }

  lemma LineEnds(rest: string)
    requires '\n' !in rest
    ensures IndexOf(rest + ['\n'], '\n') == |rest| && (rest + ['\n'])[..|rest|] == rest
  {
    assert rest + (['\n'] + "") == rest + ['\n'];
    Cut(rest, '\n', "");
  }

  lemma IndentHasNoTag(level: nat)
    ensures '<' !in Indent(level)
  {
  }

  // ---- attributes ----

  lemma AttrIsRead(a: Attr)
    requires GoodAttr(a) && ' ' !in a.value
    ensures
      var part := PrintAttr(a);
      && IndexOf(part, '=') == |a.key| && part[..|a.key|] == a.key && |a.key| < |part| - 1
      && Unquoted(part[|a.key| + 1..]) == a.value && ' ' !in part
  {
    assert '=' !in a.key;
    Cut(a.key, '=', Quoted(a.value));
    QuotedIsRead(a.value);
    var part := PrintAttr(a);
    assert ' ' !in a.key && ' ' !in a.value;
    assert forall c :: c in part ==> c in a.key || c == '=' || c in Quoted(a.value);
  }

  lemma QuotedIsRead(value: string)
    ensures Unquoted(Quoted(value)) == value && (forall c :: c in Quoted(value) ==> c == '"' || c in value)
  {
    var quoted := Quoted(value);
    assert quoted[1..|quoted| - 1] == value;
  }

  // The content of the tag: an empty part, then one a pair.
  function AttrParts(attrs: seq<Attr>): (r: seq<string>)
    ensures |r| == |attrs| + 1
  {
    if attrs == [] then [""] else AttrParts(attrs[..|attrs| - 1]) + [PrintAttr(attrs[|attrs| - 1])]
  }

  lemma {:induction false} PartsJoin(attrs: seq<Attr>)
    requires NoSpaces(attrs) && forall i :: 0 <= i < |attrs| ==> GoodAttr(attrs[i])
    ensures Join(AttrParts(attrs), " ") == PrintAttrs(attrs)
    ensures forall p :: p in AttrParts(attrs) ==> ' ' !in p
  {
    if attrs != [] {
      var init, last := attrs[..|attrs| - 1], attrs[|attrs| - 1];
      PartsJoin(init);
      JoinLast(AttrParts(init), PrintAttr(last));
      AttrIsRead(last);
    }
  }

  lemma {:induction false} JoinLast(parts: seq<string>, p: string)
    requires parts != []
    ensures Join(parts + [p], " ") == Join(parts, " ") + " " + p
  {
    if |parts| == 1 {
      assert (parts + [p])[1..] == [p];
    } else {
      assert (parts + [p])[1..] == parts[1..] + [p];
      JoinLast(parts[1..], p);
      Associative(parts[0] + " ", Join(parts[1..], " "), " " + p);
      Associative(Join(parts[1..], " "), " ", p);
      Associative(Join(parts, " "), " ", p);
    }
  }

  lemma {:induction false} PartsAreRead(attrs: seq<Attr>)
    requires NoSpaces(attrs) && forall i :: 0 <= i < |attrs| ==> GoodAttr(attrs[i])
    ensures ParseAttributes(AttrParts(attrs)) == Attributes(DictOf(attrs))
  {
    if attrs == [] {
      assert [""][..0] == [];
    } else {
      var init, last := attrs[..|attrs| - 1], attrs[|attrs| - 1];
      var parts := AttrParts(attrs);
      assert parts[..|parts| - 1] == AttrParts(init);
      PartsAreRead(init);
      AttrIsRead(last);
    }
  }

  lemma {:induction false} AttrsHaveNoBracket(attrs: seq<Attr>)
    requires forall i :: 0 <= i < |attrs| ==> GoodAttr(attrs[i])
    ensures Without(PrintAttrs(attrs), ">\n")
  {
    if attrs != [] {
      var init, a := attrs[..|attrs| - 1], attrs[|attrs| - 1];
      AttrsHaveNoBracket(init);
      var s, before, part := PrintAttrs(attrs), PrintAttrs(init) + " ", PrintAttr(a);
      AttrHasNoBracket(a);
      assert forall k :: 0 <= k < |s| ==> s[k] == if k < |before| - 1 then PrintAttrs(init)[k] else if k == |before| - 1 then ' ' else part[k - |before|];
    }
  }

  lemma AttrHasNoBracket(a: Attr)
    requires GoodAttr(a)
    ensures Without(PrintAttr(a), ">\n")
  {
    var part, n := PrintAttr(a), |a.key|;
    assert forall k :: 0 <= k < |part| ==>
      part[k] == if k < n then a.key[k] else if k == n then '=' else if k == n + 1 || k == |part| - 1 then '"' else a.value[k - n - 2];
  }

  // ---- the tag ----

  lemma TitleEnds(close: string, title: string)
    requires '<' !in title && close != "" && close[0] == '<'
    ensures
      var t := title + close;
      IndexOf(t, '<') == |title| && t[..|title|] == title && t[|title|..] == close
  {
    assert close == ['<'] + close[1..];
    assert title + close == title + ['<'] + close[1..];
    IndexOfAt(title, '<', close[1..]);
  }

  // How the attributes are read.
  function DictRead(attrs: seq<Attr>): (r: Attributes)
  {
    ParseAttributes(Split(PrintAttrs(attrs), ' '))
  }

  lemma AttrsAreRead(attrs: seq<Attr>)
    requires NoSpaces(attrs) && forall i :: 0 <= i < |attrs| ==> GoodAttr(attrs[i])
    ensures DictRead(attrs) == Attributes(DictOf(attrs))
  {
    PartsJoin(attrs);
    SplitJoin(AttrParts(attrs), ' ');
    PartsAreRead(attrs);
  }

  // A value with a space is cut there.
  lemma {:induction false} ValuesHaveNoSpace(parts: seq<string>)
    requires forall p :: p in parts ==> ' ' !in p
    ensures !ParseAttributes(parts).NoTag?
    ensures ParseAttributes(parts).Attributes? ==> forall k :: k in ParseAttributes(parts).dict ==> ' ' !in ParseAttributes(parts).dict[k]
  {
    if parts != [] {
      var part := parts[|parts| - 1];
      assert part in parts && forall p :: p in parts[..|parts| - 1] ==> p in parts;
      ValuesHaveNoSpace(parts[..|parts| - 1]);
      var eq := IndexOf(part, '=');
      assert eq < |part| ==> forall c :: c in Unquoted(part[eq + 1..]) ==> c in part;
    }
  }

  function WithTitle(r: Attributes, title: string): Attributes
  {
    if r.Attributes? then Attributes(r.dict[LABEL := title]) else r
  }

  lemma TitleIsRead(close: string, attrs: seq<Attr>, title: string)
    requires Without(title, "<\n") && close != "" && close[0] == '<'
    ensures TagTitle(close, PrintAttrs(attrs), title + close) == WithTitle(DictRead(attrs), title)
  {
    assert '<' !in title;
    TitleEnds(close, title);
  }

  lemma BodyIsRead(close: string, content: string, t: string)
    requires Without(content, ">\n")
    ensures TagBody(close, content + (">" + t)) == TagTitle(close, content, t)
  {
    var s := content + (">" + t);
    assert '>' !in content;
    assert s == content + ['>'] + t;
    IndexOfAt(content, '>', t);
    assert s[..|content|] == content && s[|content| + 1..] == t;
  }

  lemma TagIsRead(tag: string, attrs: seq<Attr>, title: string)
    requires forall i :: 0 <= i < |attrs| ==> GoodAttr(attrs[i])
    requires Without(title, "<\n")
    ensures CompleteTag(tag, "<" + tag + PrintAttrs(attrs) + ">" + title + ("</" + tag + ">")) == WithTitle(DictRead(attrs), title)
  {
    var open, close, content := "<" + tag, "</" + tag + ">", PrintAttrs(attrs);
    Associative(open + content + ">", title, close);
    Associative(open + content, ">", title + close);
    Associative(open, content, ">" + (title + close));
    var rest := open + (content + (">" + (title + close)));
    assert rest[|open|..] == content + (">" + (title + close));
    AttrsHaveNoBracket(attrs);
    BodyIsRead(close, content, title + close);
    TitleIsRead(close, attrs, title);
  }

  lemma TagIsReadAs(b: Bookmark)
    requires Good(b)
    ensures EntryOf(PrintTag(b)) == WithTitle(DictRead(b.attrs), b.title)
  {
    TagIsRead(TagOf(b), b.attrs, b.title);
    ValuesHaveNoSpace(Split(PrintAttrs(b.attrs), ' '));
    if b.Folder? {
      assert PrintTag(b)[1] == 'H';
    }
  }

  // The attributes of a link or a folder come back if and only if no value has a space.
  lemma BookmarkTagIsRead(b: Bookmark)
    requires Good(b) && ProperKeys(b.attrs)
    ensures EntryOf(PrintTag(b)) == Attributes(DictOf(b.attrs)[LABEL := b.title]) <==> NoSpaces(b.attrs)
  {
    TagIsReadAs(b);
    if NoSpaces(b.attrs) {
      AttrsAreRead(b.attrs);
    } else {
      var i :| 0 <= i < |b.attrs| && ' ' in b.attrs[i].value;
      ValuesHaveNoSpace(Split(PrintAttrs(b.attrs), ' '));
      DictHas(b.attrs, i);
      var d := DictOf(b.attrs)[LABEL := b.title];
      assert d[b.attrs[i].key] == b.attrs[i].value;
    }
  }

  // The reader uses these keys for itself.
  const RESERVED := {LABEL, "description", "children"}

  ghost predicate ProperKeys(attrs: seq<Attr>)
  {
    && (forall i, j :: 0 <= i < j < |attrs| ==> attrs[i].key != attrs[j].key)
    && (forall i :: 0 <= i < |attrs| ==> attrs[i].key !in RESERVED)
  }

  lemma {:induction false} DictHas(attrs: seq<Attr>, i: nat)
    requires i < |attrs| && forall i, j :: 0 <= i < j < |attrs| ==> attrs[i].key != attrs[j].key
    ensures attrs[i].key in DictOf(attrs) && DictOf(attrs)[attrs[i].key] == attrs[i].value
  {
    if i < |attrs| - 1 {
      DictHas(attrs[..|attrs| - 1], i);
    }
  }

  lemma PrintTagIsOneLine(b: Bookmark)
    requires Good(b)
    ensures '\n' !in PrintTag(b)
  {
    AttrsHaveNoBracket(b.attrs);
    var open, close := "<" + TagOf(b), "</" + TagOf(b) + ">";
    assert '\n' !in open && '\n' !in close && '\n' !in PrintAttrs(b.attrs) && '\n' !in b.title;
    assert forall c :: c in PrintTag(b) ==> c in open || c in PrintAttrs(b.attrs) || c == '>' || c in b.title || c in close;
  }

  lemma StripTight(s: string)
    requires s != "" ==> !IsSpace(s[0]) && !IsSpace(s[|s| - 1])
    ensures Strip(s) == s
  {
  }

  // ---- the round trip ----

  lemma ConsImport(line: string, more: seq<string>, arr: seq<Entry>)
    ensures Import([line] + more, arr) ==
      var (tag, rest) := TagAndRest(line);
      if tag == "DL" then AfterList(Import(more, []), arr)
      else if tag == "/DL" then Done(arr, more)
      else AfterLine(ReadLine(arr, tag, rest), more)
  {
    var lines := [line] + more;
    assert lines[0..] == lines && lines[1..] == more;
    ImportAt(lines, 0, arr);
  }

  function ReadDict(attrs: seq<Attr>): map<string, string>
  {
    if DictRead(attrs).Attributes? then DictRead(attrs).dict else map[]
  }

  ghost predicate IsRead(attrs: seq<Attr>) { DictRead(attrs).Attributes? }

  lemma TitleLine(b: Bookmark, level: nat, more: seq<string>, arr: seq<Entry>)
    requires Good(b)
    ensures Import([PrintLine(Indent(level), "DT", PrintTag(b))] + more, arr) == AfterLine(ReadLine(arr, "DT", PrintTag(b)), more)
  {
    IndentHasNoTag(level);
    PrintTagIsOneLine(b);
    LineIsRead(Indent(level), "DT", PrintTag(b));
    ConsImport(PrintLine(Indent(level), "DT", PrintTag(b)), more, arr);
  }

  lemma ReadDT(b: Bookmark, level: nat, more: seq<string>, arr: seq<Entry>)
    requires Good(b)
    ensures Import([PrintLine(Indent(level), "DT", PrintTag(b))] + more, arr) ==
      if IsRead(b.attrs) then Import(more, arr + [Titled(b, ReadDict)]) else Failed
  {
    TitleLine(b, level, more, arr);
    TagIsReadAs(b);
    ValuesHaveNoSpace(Split(PrintAttrs(b.attrs), ' '));
  }

  lemma DescriptionIsSet(text: string, arr: seq<Entry>, e: Entry)
    requires text != "" && !IsSpace(text[0]) && !IsSpace(text[|text| - 1]) && e.Entry?
    ensures ReadLine(arr + [e], "DD", text) == Next(arr + [SetDescription(e, text)])
  {
    StripTight(text);
    assert (arr + [e])[..|arr|] == arr;
  }

  lemma DescriptionLine(text: string, level: nat)
    requires Without(text, "\n")
    ensures TagAndRest(PrintLine(Indent(level), "DD", text)) == ("DD", text)
  {
    IndentHasNoTag(level);
    LineIsRead(Indent(level), "DD", text);
  }

  lemma ReadDD(text: string, level: nat, more: seq<string>, arr: seq<Entry>, e: Entry)
    requires text != "" && !IsSpace(text[0]) && !IsSpace(text[|text| - 1]) && Without(text, "\n") && e.Entry?
    ensures Import([PrintLine(Indent(level), "DD", text)] + more, arr + [e]) == Import(more, arr + [SetDescription(e, text)])
  {
    DescriptionLine(text, level);
    ConsImport(PrintLine(Indent(level), "DD", text), more, arr + [e]);
    DescriptionIsSet(text, arr, e);
  }

  lemma ReadClosing(level: nat, more: seq<string>, arr: seq<Entry>)
    ensures Import([Closing(level)] + more, arr) == Done(arr, more)
  {
    IndentHasNoTag(level);
    LineIsRead(Indent(level), "/DL", "<p>");
    ConsImport(Closing(level), more, arr);
  }

  // A list goes to the entry before it.
  lemma ReadList(level: nat, lines: seq<string>, arr: seq<Entry>)
    ensures Import([Opening(level)] + lines, arr) == AfterList(Import(lines, []), arr)
  {
    IndentHasNoTag(level);
    LineIsRead(Indent(level), "DL", "<p>");
    ConsImport(Opening(level), lines, arr);
  }

  // The title, and the description if there is one.
  lemma HeadIsRead(b: Bookmark, level: nat, more: seq<string>, arr: seq<Entry>)
    requires Good(b)
    ensures Import([PrintLine(Indent(level), "DT", PrintTag(b))] + (PrintDescription(b, level) + more), arr) ==
      if IsRead(b.attrs) then Import(more, arr + [Described(b, ReadDict)]) else Failed
  {
    ReadDT(b, level, PrintDescription(b, level) + more, arr);
    DescriptionIsRead(b, level, more, arr);
  }

  lemma DescriptionIsRead(b: Bookmark, level: nat, more: seq<string>, arr: seq<Entry>)
    requires Good(b)
    ensures Import(PrintDescription(b, level) + more, arr + [Titled(b, ReadDict)]) == Import(more, arr + [Described(b, ReadDict)])
  {
    if b.description == "" {
      assert [] + more == more;
    } else {
      ReadDD(b.description, level, more, arr, Titled(b, ReadDict));
    }
  }

  // Reading a printed forest adds its entries, as their attributes are read, and goes on with what follows;
  // it fails when some of them are not read.
  lemma {:induction false} ForestIsRead(bs: seq<Bookmark>, level: nat, more: seq<string>, arr: seq<Entry>)
    requires AllGood(bs)
    ensures Import(PrintForest(bs, level) + more, arr) ==
      if AllHold(bs, IsRead) then Import(more, arr + EntriesWith(bs, ReadDict)) else Failed
    decreases bs, 0
  {
    if bs == [] {
      assert PrintForest(bs, level) + more == more && arr + [] == arr;
    } else {
      var first, others := PrintBookmark(bs[0], level), PrintForest(bs[1..], level);
      Regroup(first, others, more);
      BookmarkIsRead(bs[0], level, others + more, arr);
      ForestIsRead(bs[1..], level, more, arr + [EntryWith(bs[0], ReadDict)]);
      Regroup(arr, [EntryWith(bs[0], ReadDict)], EntriesWith(bs[1..], ReadDict));
    }
  }

  lemma {:induction false} BookmarkIsRead(b: Bookmark, level: nat, more: seq<string>, arr: seq<Entry>)
    requires Good(b)
    ensures Import(PrintBookmark(b, level) + more, arr) ==
      if Holds(b, IsRead) then Import(more, arr + [EntryWith(b, ReadDict)]) else Failed
    decreases b, 1
  {
    var dt, dd := [PrintLine(Indent(level), "DT", PrintTag(b))], PrintDescription(b, level);
    var dl := if b.Site? then [] else [Opening(level)] + (PrintForest(b.children, level + 1) + [Closing(level)]);
    Regroup(dt, dd + dl, more);
    Regroup(dd, dl, more);
    HeadIsRead(b, level, dl + more, arr);
    if b.Site? {
      assert [] + more == more;
    } else {
      FolderIsRead(b, level, more, arr, Described(b, ReadDict));
    }
  }

  lemma {:induction false} FolderIsRead(b: Bookmark, level: nat, more: seq<string>, arr: seq<Entry>, e: Entry)
    requires Good(b) && b.Folder? && e.Entry?
    ensures Import([Opening(level)] + (PrintForest(b.children, level + 1) + [Closing(level)]) + more, arr + [e]) ==
      if AllHold(b.children, IsRead) then Import(more, arr + [SetChildren(e, EntriesWith(b.children, ReadDict))]) else Failed
    decreases b, 0
  {
    var inside, entries := PrintForest(b.children, level + 1), EntriesWith(b.children, ReadDict);
    ForestIsRead(b.children, level + 1, [Closing(level)] + more, []);
    assert [] + entries == entries;
    ReadClosing(level, more, entries);
    Regroup([Opening(level)], inside + [Closing(level)], more);
    Regroup(inside, [Closing(level)], more);
    ReadList(level, inside + ([Closing(level)] + more), arr + [e]);
    AttachToLast(arr, e, entries, more);
  }

  lemma AttachToLast(arr: seq<Entry>, e: Entry, entries: seq<Entry>, more: seq<string>)
    requires e.Entry?
    ensures AfterList(Done(entries, more), arr + [e]) == Import(more, arr + [SetChildren(e, entries)])
  {
    assert (arr + [e])[..|arr|] == arr;
  }

  lemma AttachToRoot(entries: seq<Entry>, more: seq<string>)
    ensures AfterList(Done(entries, more), []) == Import(more, [SetChildren(ROOT, entries)])
  {
    assert [ROOT][..0] + [SetChildren(ROOT, entries)] == [SetChildren(ROOT, entries)];
  }

  // ---- the same forest ----

  lemma {:induction false} SameEntries(bs: seq<Bookmark>)
    requires AllGood(bs) && AllHold(bs, ProperKeys) && AllHold(bs, IsRead)
    ensures EntriesWith(bs, ReadDict) == EntriesFor(bs) <==> AllHold(bs, NoSpaces)
    decreases bs, 0
  {
    if bs != [] {
      SameEntry(bs[0]);
      SameEntries(bs[1..]);
      SameCons(EntryWith(bs[0], ReadDict), EntriesWith(bs[1..], ReadDict), EntryWith(bs[0], DictOf), EntriesWith(bs[1..], DictOf));
    }
  }

  lemma SameCons<T>(a: T, s: seq<T>, b: T, t: seq<T>)
    ensures [a] + s == [b] + t <==> a == b && s == t
  {
    assert ([a] + s)[0] == a && ([a] + s)[1..] == s;
    assert ([b] + t)[0] == b && ([b] + t)[1..] == t;
  }

  lemma {:induction false} SameEntry(b: Bookmark)
    requires Good(b) && Holds(b, ProperKeys) && Holds(b, IsRead)
    ensures EntryWith(b, ReadDict) == EntryWith(b, DictOf) <==> Holds(b, NoSpaces)
    decreases b, 1
  {
    SameDict(b);
    if b.Folder? {
      SameEntries(b.children);
    }
  }

  // The dictionary shows a space which the reader lost.
  lemma SameDict(b: Bookmark)
    requires Good(b) && ProperKeys(b.attrs) && IsRead(b.attrs)
    ensures NoSpaces(b.attrs) ==> Described(b, ReadDict) == Described(b, DictOf)
    ensures !NoSpaces(b.attrs) ==> Described(b, ReadDict).dict - {"children"} != Described(b, DictOf).dict - {"children"}
  {
    if NoSpaces(b.attrs) {
      AttrsAreRead(b.attrs);
    } else {
      var i :| 0 <= i < |b.attrs| && ' ' in b.attrs[i].value;
      var key := b.attrs[i].key;
      ValuesHaveNoSpace(Split(PrintAttrs(b.attrs), ' '));
      DictHas(b.attrs, i);
      var d := Described(b, DictOf).dict - {"children"};
      assert key in d && d[key] == b.attrs[i].value;
      var e := Described(b, ReadDict).dict - {"children"};
      assert key in e ==> e[key] == ReadDict(b.attrs)[key];
    }
  }

  lemma {:induction false} NoSpacesAreRead(bs: seq<Bookmark>)
    requires AllGood(bs) && AllHold(bs, NoSpaces)
    ensures AllHold(bs, IsRead)
    decreases bs, 0
  {
    if bs != [] {
      AttrsAreRead(bs[0].attrs);
      if bs[0].Folder? { NoSpacesAreRead(bs[0].children); }
      NoSpacesAreRead(bs[1..]);
    }
  }

  // The main result: a printed forest is read up to its closing line and no further; the same forest comes back
  // if and only if no value of its attributes has a space.
  lemma ReadBack(bs: seq<Bookmark>, level: nat, more: seq<string>)
    requires AllGood(bs) && AllHold(bs, ProperKeys)
    ensures Import(PrintForest(bs, level) + [Closing(level)] + more, []) == Done(EntriesFor(bs), more) <==> AllHold(bs, NoSpaces)
    ensures Import(PrintForest(bs, level), []) == Done(EntriesFor(bs), []) <==> AllHold(bs, NoSpaces)
  {
    ReadUpToClosing(bs, level, more);
    Regroup(PrintForest(bs, level), [Closing(level)], more);
    ForestIsRead(bs, level, [], []);
    assert PrintForest(bs, level) + [] == PrintForest(bs, level);
    assert [] + EntriesWith(bs, ReadDict) == EntriesWith(bs, ReadDict);
    if AllHold(bs, IsRead) {
      SameEntries(bs);
    }
    if AllHold(bs, NoSpaces) {
      NoSpacesAreRead(bs);
    }
  }

  lemma ReadUpToClosing(bs: seq<Bookmark>, level: nat, more: seq<string>)
    requires AllGood(bs)
    ensures Import(PrintForest(bs, level) + ([Closing(level)] + more), []) ==
      if AllHold(bs, IsRead) then Done(EntriesWith(bs, ReadDict), more) else Failed
  {
    var entries := EntriesWith(bs, ReadDict);
    ForestIsRead(bs, level, [Closing(level)] + more, []);
    ReadClosing(level, more, entries);
    NothingBefore(entries);
  }

  lemma NothingBefore(entries: seq<Entry>)
    ensures [] + entries == entries
  {
  }

  // A list which comes first gets an entry called ROOT; any other one goes to the entry before it.
  lemma RootOnlyWhenListIsFirst(bs: seq<Bookmark>, level: nat, more: seq<string>, arr: seq<Entry>)
    requires AllGood(bs) && AllHold(bs, IsRead) && (arr != [] ==> arr[|arr| - 1].Entry?)
    ensures
      var children := EntriesWith(bs, ReadDict);
      Import([Opening(level)] + (PrintForest(bs, level) + ([Closing(level)] + more)), arr) ==
        Import(more, if arr == [] then [SetChildren(ROOT, children)] else arr[..|arr| - 1] + [SetChildren(arr[|arr| - 1], children)])
  {
    ReadUpToClosing(bs, level, more);
    ReadList(level, PrintForest(bs, level) + ([Closing(level)] + more), arr);
    AttachAnywhere(arr, EntriesWith(bs, ReadDict), more);
  }

  lemma AttachAnywhere(arr: seq<Entry>, children: seq<Entry>, more: seq<string>)
    requires arr != [] ==> arr[|arr| - 1].Entry?
    ensures AfterList(Done(children, more), arr) ==
      Import(more, if arr == [] then [SetChildren(ROOT, children)] else arr[..|arr| - 1] + [SetChildren(arr[|arr| - 1], children)])
  {
    if arr == [] {
      AttachToRoot(children, more);
    }
  }
}
