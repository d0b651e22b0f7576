/** entity_dirmenu_only: the menu of the scripts below a directory. The node of a directory is its title only. */
module ScriptTree {
  import opened Text
  import opened Collections

  // ---- titles ----

  const MAX_LENGTH := 40

  function Capitalized(s: string): string
  {
    if s == "" then "" else [UpperChar(s[0])] + Lower(s[1..])
  }

  // The first line which is not empty.
  function FirstText(lines: seq<string>): string
  {
    if lines == [] then "" else if lines[0] != "" then lines[0] else FirstText(lines[1..])
  }

  function Shortened(line: string): string
  {
    if |line| > MAX_LENGTH then line[..MAX_LENGTH] + "..." else line
  }

  // What is displayed of a module: the start of its documentation, or else its name.
  function DocText(doc: Option<string>, name: string): string
  {
    var line := if doc.Some? then FirstText(Split(doc.value, '\n')) else "";
    if line != "" then Shortened(line) else Capitalized(ReplaceChar(name, '_', ' '))
  }

  // The loop over the lines of the documentation.
  method FromModuleToDoc(doc: Option<string>, name: string) returns (text: string)
    ensures text == DocText(doc, name)
  {
    text := "";
    if doc.Some? {
      var lines := Split(doc.value, '\n');
      for i := 0 to |lines|
        invariant text == "" && FirstText(lines) == FirstText(lines[i..])
      {
        if lines[i] != "" {
          text := Shortened(lines[i]);
          break;
        }
      }
    }
    if text == "" {
      text := Capitalized(ReplaceChar(name, '_', ' '));
    }
  }

  // ---- directories ----

  // Whether a script can be imported, its documentation, and whether it says that it is usable.
  datatype File = File(name: string, imports: bool, doc: Option<string>, usable: bool)

  // Whether the module of a directory can be imported, its documentation, whether it is the one of a class,
  // and whether it says that it is usable.
  datatype Dir = Dir(name: string, imports: bool, doc: Option<string>, isClass: bool, usable: bool, dirs: seq<Dir>, files: seq<File>)

  function TitleOf(d: Dir): string { DocText(d.doc, d.name) }

  predicate IsPython(name: string)
  {
    EndsWith(name, ".py") && name != "__init__.py"
  }

  predicate IsShown(f: File, showAll: bool)
  {
    IsPython(f.name) && (showAll || (f.imports && f.usable))
  }

  predicate IsVisited(d: Dir)
  {
    d.name != "__pycache__" && d.imports && !d.isClass
  }

  // ---- the scripts to show ----

  // The directories from the one where the menu starts: each one is in the one before, and is visited.
  predicate IsWay(d: Dir, way: seq<Dir>)
    decreases |way|
  {
    way != [] ==> way[0] in d.dirs && IsVisited(way[0]) && IsWay(way[0], way[1..])
  }

  // The script is in the last directory of a way, all usable.
  predicate Shown(d: Dir, way: seq<Dir>, f: File, showAll: bool)
    decreases |way|
  {
    && d.usable
    && if way == [] then f in d.files && IsShown(f, showAll)
       else way[0] in d.dirs && IsVisited(way[0]) && Shown(way[0], way[1..], f, showAll)
  }

  ghost predicate HasScript(d: Dir, showAll: bool)
  {
    exists way, f :: Shown(d, way, f, showAll)
  }

  // A script is shown in this directory, or in another one below it.
  ghost predicate HasScriptBelow(d: Dir, way: seq<Dir>, showAll: bool)
  {
    exists more, f :: Shown(d, way + more, f, showAll)
  }

  // ---- the graph ----

  // The names of the directories which lead to a script make its address.
  type Path = seq<string>

  datatype Node = StartNode | DirNode(title: string) | ScriptNode(path: Path, name: string)

  datatype Triple = Link(parent: Node, child: Node) | Info(node: Node, text: string) | Error(node: Node)

  function Names(way: seq<Dir>): (path: Path)
    ensures |path| == |way|
  {
    seq(|way|, i requires 0 <= i < |way| => way[i].name)
  }

  // The node at the end of a way from a parent.
  function NodeAt(parent: Node, way: seq<Dir>): Node
  {
    if way == [] then parent else DirNode(TitleOf(way[|way| - 1]))
  }

  function FileText(f: File): string
    requires IsPython(f.name)
  {
    DocText(if f.imports then f.doc else None, f.name[..|f.name| - 3])
  }

  function ScriptTriples(parent: Node, path: Path, f: File): set<Triple>
    requires IsPython(f.name)
  {
    var node := ScriptNode(path, f.name);
    {Link(parent, node), Info(node, FileText(f))} + (if f.imports && f.usable then {} else {Error(node)})
  }

  function LinkTo(parent: Node, way: seq<Dir>): Triple
    requires way != []
  {
    Link(NodeAt(parent, way[..|way| - 1]), NodeAt(parent, way))
  }

  // The links from the parent to a script, and what is about the script.
  ghost predicate InTrail(parent: Node, start: Path, way: seq<Dir>, f: File, t: Triple)
    requires IsPython(f.name)
  {
    t in ScriptTriples(NodeAt(parent, way), start + Names(way), f) || IsLinkOn(parent, way, t)
  }

  ghost predicate IsLinkOn(parent: Node, way: seq<Dir>, t: Triple)
  {
    exists n :: 0 < n <= |way| && t == LinkTo(parent, way[..n])
  }

  lemma {:induction false} ShownIsPython(d: Dir, way: seq<Dir>, f: File, showAll: bool)
    requires Shown(d, way, f, showAll)
    ensures IsPython(f.name) && IsWay(d, way)
  {
    if way != [] {
      ShownIsPython(way[0], way[1..], f, showAll);
    }
  }

  ghost predicate IsTrail(d: Dir, parent: Node, start: Path, showAll: bool, way: seq<Dir>, f: File, t: Triple)
  {
    IsPython(f.name) && Shown(d, way, f, showAll) && InTrail(parent, start, way, f, t)
  }

  // The menu is made of the trails to the scripts, and of nothing else.
  ghost predicate InMenu(d: Dir, parent: Node, start: Path, showAll: bool, t: Triple)
  {
    exists way, f :: IsTrail(d, parent, start, showAll, way, f, t)
  }

  // ---- one directory ----

  ghost predicate FromDir(c: Dir, parent: Node, start: Path, showAll: bool, t: Triple)
  {
    && IsVisited(c)
    && var node := DirNode(TitleOf(c));
       InMenu(c, node, start + [c.name], showAll, t) || (HasScript(c, showAll) && t == Link(parent, node))
  }

  ghost predicate FromFile(f: File, parent: Node, start: Path, showAll: bool, t: Triple)
  {
    IsShown(f, showAll) && t in ScriptTriples(parent, start, f)
  }

  ghost predicate FromDirs(dirs: seq<Dir>, parent: Node, start: Path, showAll: bool, t: Triple)
  {
    exists c :: c in dirs && FromDir(c, parent, start, showAll, t)
  }

  lemma OneMoreDir(dirs: seq<Dir>, c: Dir, parent: Node, start: Path, showAll: bool, t: Triple)
    ensures FromDirs(dirs + [c], parent, start, showAll, t) <==>
      FromDirs(dirs, parent, start, showAll, t) || FromDir(c, parent, start, showAll, t)
  {
    if FromDir(c, parent, start, showAll, t) {
      assert c in dirs + [c];
    }
    if FromDirs(dirs, parent, start, showAll, t) {
      var e :| e in dirs && FromDir(e, parent, start, showAll, t);
      assert e in dirs + [c];
    }
  }

  lemma NodeOfChild(parent: Node, c: Dir, way: seq<Dir>)
    ensures NodeAt(parent, [c] + way) == NodeAt(DirNode(TitleOf(c)), way)
  {
    var longer := [c] + way;
    assert way != [] ==> longer[|longer| - 1] == way[|way| - 1];
  }

  lemma LinkOfChild(parent: Node, c: Dir, way: seq<Dir>)
    ensures LinkTo(parent, [c] + way) ==
      if way == [] then Link(parent, DirNode(TitleOf(c))) else LinkTo(DirNode(TitleOf(c)), way)
  {
    var longer := [c] + way;
    NodeOfChild(parent, c, way);
    if way != [] {
      NodeOfChild(parent, c, way[..|way| - 1]);
      assert longer[..|longer| - 1] == [c] + way[..|way| - 1];
    } else {
      assert longer[..0] == [];
    }
  }

  lemma NamesOfChild(start: Path, c: Dir, way: seq<Dir>)
    ensures start + Names([c] + way) == start + [c.name] + Names(way)
  {
    assert Names([c] + way) == [c.name] + Names(way);
  }

  lemma LinkOnChild(parent: Node, c: Dir, way: seq<Dir>, n: nat)
    requires n <= |way|
    ensures LinkTo(parent, ([c] + way)[..n + 1]) ==
      if n == 0 then Link(parent, DirNode(TitleOf(c))) else LinkTo(DirNode(TitleOf(c)), way[..n])
  {
    LinkOfChild(parent, c, way[..n]);
    assert ([c] + way)[..n + 1] == [c] + way[..n];
  }

  lemma LinksOfChild(parent: Node, c: Dir, way: seq<Dir>, t: Triple)
    ensures IsLinkOn(parent, [c] + way, t) <==> t == Link(parent, DirNode(TitleOf(c))) || IsLinkOn(DirNode(TitleOf(c)), way, t)
  {
    var node, longer := DirNode(TitleOf(c)), [c] + way;
    LinkOnChild(parent, c, way, 0);
    if n :| 0 < n <= |longer| && t == LinkTo(parent, longer[..n]) {
      LinkOnChild(parent, c, way, n - 1);
    }
    if n :| 0 < n <= |way| && t == LinkTo(node, way[..n]) {
      LinkOnChild(parent, c, way, n);
    }
  }

  lemma TrailOfChild(parent: Node, start: Path, c: Dir, way: seq<Dir>, f: File, t: Triple)
    requires IsPython(f.name)
    ensures InTrail(parent, start, [c] + way, f, t) <==>
      InTrail(DirNode(TitleOf(c)), start + [c.name], way, f, t) || t == Link(parent, DirNode(TitleOf(c)))
  {
    NodeOfChild(parent, c, way);
    NamesOfChild(start, c, way);
    LinksOfChild(parent, c, way, t);
  }

  lemma ChildIsInMenu(d: Dir, c: Dir, parent: Node, start: Path, showAll: bool, t: Triple)
    requires d.usable && c in d.dirs && FromDir(c, parent, start, showAll, t)
    ensures InMenu(d, parent, start, showAll, t) && HasScript(d, showAll)
  {
    var node := DirNode(TitleOf(c));
    var way, f :| Shown(c, way, f, showAll) && (IsTrail(c, node, start + [c.name], showAll, way, f, t) || t == Link(parent, node));
    ShownIsPython(c, way, f, showAll);
    var longer := [c] + way;
    assert longer[1..] == way;
    assert Shown(d, longer, f, showAll);
    TrailOfChild(parent, start, c, way, f, t);
    assert IsTrail(d, parent, start, showAll, longer, f, t);
  }

  lemma FileIsInMenu(d: Dir, f: File, parent: Node, start: Path, showAll: bool, t: Triple)
    requires d.usable && f in d.files && FromFile(f, parent, start, showAll, t)
    ensures InMenu(d, parent, start, showAll, t)
  {
    assert Shown(d, [], f, showAll);
    assert start + Names([]) == start;
    assert IsTrail(d, parent, start, showAll, [], f, t);
  }

  lemma MenuComesFrom(d: Dir, parent: Node, start: Path, showAll: bool, t: Triple)
    requires InMenu(d, parent, start, showAll, t)
    ensures InMenuByParts(d, parent, start, showAll, t)
  {
    var way, f :| IsTrail(d, parent, start, showAll, way, f, t);
    if way == [] {
      assert start + Names([]) == start;
      assert FromFile(f, parent, start, showAll, t);
    } else {
      var c, rest := way[0], way[1..];
      assert way == [c] + rest;
      TrailOfChild(parent, start, c, rest, f, t);
      assert Shown(c, rest, f, showAll);
      assert InTrail(DirNode(TitleOf(c)), start + [c.name], rest, f, t) ==>
        IsTrail(c, DirNode(TitleOf(c)), start + [c.name], showAll, rest, f, t);
      assert FromDir(c, parent, start, showAll, t);
    }
  }

  ghost predicate InMenuByParts(d: Dir, parent: Node, start: Path, showAll: bool, t: Triple)
  {
    && d.usable
    && (FromDirs(d.dirs, parent, start, showAll, t) || (exists f :: f in d.files && FromFile(f, parent, start, showAll, t)))
  }

  lemma MenuSplits(d: Dir, parent: Node, start: Path, showAll: bool, t: Triple)
    ensures InMenu(d, parent, start, showAll, t) <==> InMenuByParts(d, parent, start, showAll, t)
  {
    if InMenu(d, parent, start, showAll, t) {
      MenuComesFrom(d, parent, start, showAll, t);
    }
    if InMenuByParts(d, parent, start, showAll, t) {
      if c :| c in d.dirs && FromDir(c, parent, start, showAll, t) {
        ChildIsInMenu(d, c, parent, start, showAll, t);
      } else {
        var f :| f in d.files && FromFile(f, parent, start, showAll, t);
        FileIsInMenu(d, f, parent, start, showAll, t);
      }
    }
  }

  lemma ScriptComesFrom(d: Dir, showAll: bool)
    ensures HasScript(d, showAll) <==>
      d.usable && ((exists c :: c in d.dirs && IsVisited(c) && HasScript(c, showAll)) || (exists f :: f in d.files && IsShown(f, showAll)))
  {
    if HasScript(d, showAll) {
      var way, f :| Shown(d, way, f, showAll);
      if way != [] {
        assert Shown(way[0], way[1..], f, showAll);
        assert way[0] in d.dirs && HasScript(way[0], showAll);
      }
    }
    if d.usable {
      if c :| c in d.dirs && IsVisited(c) && HasScript(c, showAll) {
        var way, f :| Shown(c, way, f, showAll);
        assert ([c] + way)[1..] == way;
        assert Shown(d, [c] + way, f, showAll);
      }
      if f :| f in d.files && IsShown(f, showAll) {
        assert Shown(d, [], f, showAll);
      }
    }
  }

  // ---- which directories are linked ----

  // Two directories with the same title, in directories with the same title, have one link.
  ghost predicate SameLink(parent: Node, way: seq<Dir>, other: seq<Dir>)
  {
    way != [] && other != [] && LinkTo(parent, way) == LinkTo(parent, other)
  }

  ghost predicate Linked(d: Dir, parent: Node, start: Path, showAll: bool, way: seq<Dir>)
  {
    way != [] && InMenu(d, parent, start, showAll, LinkTo(parent, way))
  }

  // Exactly when a directory is linked: some directory with the same link has a script.
  lemma LinkIffScript(d: Dir, parent: Node, start: Path, showAll: bool, way: seq<Dir>)
    requires way != []
    ensures Linked(d, parent, start, showAll, way) <==>
      exists other :: SameLink(parent, way, other) && HasScriptBelow(d, other, showAll)
  {
    if Linked(d, parent, start, showAll, way) {
      var other := LinkHasScript(d, parent, start, showAll, LinkTo(parent, way));
      assert SameLink(parent, way, other);
    }
    if other :| SameLink(parent, way, other) && HasScriptBelow(d, other, showAll) {
      ScriptHasLink(d, parent, start, showAll, other);
    }
  }

  // A link to a directory comes from one which has a script.
  lemma LinkHasScript(d: Dir, parent: Node, start: Path, showAll: bool, t: Triple) returns (way: seq<Dir>)
    requires t.Link? && !t.child.ScriptNode? && InMenu(d, parent, start, showAll, t)
    ensures way != [] && LinkTo(parent, way) == t && HasScriptBelow(d, way, showAll)
  {
    var longer, f, n := LinkIsOnWay(d, parent, start, showAll, t);
    way := longer[..n];
    ScriptIsBelow(d, longer, n, f, showAll);
  }

  lemma ScriptIsBelow(d: Dir, way: seq<Dir>, n: nat, f: File, showAll: bool)
    requires n <= |way| && Shown(d, way, f, showAll)
    ensures HasScriptBelow(d, way[..n], showAll)
  {
    assert way == way[..n] + way[n..];
  }

  lemma LinkIsOnWay(d: Dir, parent: Node, start: Path, showAll: bool, t: Triple) returns (way: seq<Dir>, f: File, n: nat)
    requires t.Link? && !t.child.ScriptNode? && InMenu(d, parent, start, showAll, t)
    ensures 0 < n <= |way| && t == LinkTo(parent, way[..n]) && Shown(d, way, f, showAll)
  {
    way, f :| IsTrail(d, parent, start, showAll, way, f, t);
    assert IsLinkOn(parent, way, t);
    n :| 0 < n <= |way| && t == LinkTo(parent, way[..n]);
  }

  lemma ScriptHasLink(d: Dir, parent: Node, start: Path, showAll: bool, way: seq<Dir>)
    requires way != [] && HasScriptBelow(d, way, showAll)
    ensures Linked(d, parent, start, showAll, way)
  {
    var more, f :| Shown(d, way + more, f, showAll);
    var longer := way + more;
    ShownIsPython(d, longer, f, showAll);
    assert longer[..|way|] == way;
    assert 0 < |way| <= |longer| && LinkTo(parent, way) == LinkTo(parent, longer[..|way|]);
    assert IsTrail(d, parent, start, showAll, longer, f, LinkTo(parent, way));
  }

  lemma {:induction false} WayToScript(d: Dir, way: seq<Dir>, more: seq<Dir>, f: File, showAll: bool)
    requires Shown(d, way + more, f, showAll)
    ensures IsWay(d, way)
  {
    if way != [] {
      assert (way + more)[1..] == way[1..] + more;
      WayToScript(way[0], way[1..], more, f, showAll);
    }
  }

  // The directories which are visited all have different titles.
  ghost predicate DistinctTitles(d: Dir)
  {
    forall way, other :: IsWay(d, way) && IsWay(d, other) && way != [] && NodeAt(StartNode, way) == NodeAt(StartNode, other) ==> way == other
  }

  // Then a directory is linked if and only if a script is shown below it.
  lemma LinkIffOwnScript(d: Dir, start: Path, showAll: bool, way: seq<Dir>)
    requires DistinctTitles(d) && way != [] && IsWay(d, way)
    ensures Linked(d, StartNode, start, showAll, way) <==> HasScriptBelow(d, way, showAll)
  {
    LinkIffScript(d, StartNode, start, showAll, way);
    forall other | SameLink(StartNode, way, other) && HasScriptBelow(d, other, showAll) ensures other == way {
      var more, f :| Shown(d, other + more, f, showAll);
      WayToScript(d, other, more, f, showAll);
    }
    assert SameLink(StartNode, way, way);
  }

  // A directory is linked for each one below which a script is shown and no other one, exactly when two directories
  // with one link both have a script or both have none.
  lemma LinksAreRightIff(d: Dir, parent: Node, start: Path, showAll: bool)
    ensures (forall way :: way != [] && IsWay(d, way) ==> (Linked(d, parent, start, showAll, way) <==> HasScriptBelow(d, way, showAll))) <==>
      (forall way, other :: IsWay(d, way) && IsWay(d, other) && SameLink(parent, way, other) && HasScriptBelow(d, other, showAll) ==>
        HasScriptBelow(d, way, showAll))
  {
    forall way | way != [] ensures
      Linked(d, parent, start, showAll, way) <==> exists other :: SameLink(parent, way, other) && HasScriptBelow(d, other, showAll)
    {
      LinkIffScript(d, parent, start, showAll, way);
    }
    forall other | HasScriptBelow(d, other, showAll) ensures IsWay(d, other) {
      var more, f :| Shown(d, other + more, f, showAll);
      WayToScript(d, other, more, f, showAll);
    }
    forall way | way != [] ensures SameLink(parent, way, way) {
    }
  }

  // An empty directory is linked when the one beside it has the same title and a script.
  lemma EmptyDirIsLinked(d: Dir, parent: Node, start: Path, showAll: bool, c: Dir, e: Dir)
    requires d.usable && c in d.dirs && e in d.dirs && IsVisited(c) && IsVisited(e)
    requires TitleOf(c) == TitleOf(e) && HasScript(c, showAll) && !HasScript(e, showAll)
    ensures Linked(d, parent, start, showAll, [e]) && !HasScriptBelow(d, [e], showAll)
  {
    assert Link(parent, DirNode(TitleOf(c))) == LinkTo(parent, [e]) by {
      assert [e][..0] == [];
    }
    assert FromDir(c, parent, start, showAll, LinkTo(parent, [e]));
    ChildIsInMenu(d, c, parent, start, showAll, LinkTo(parent, [e]));
    ScriptBelowChild(d, e, showAll);
  }

  lemma ScriptBelowChild(d: Dir, e: Dir, showAll: bool)
    ensures HasScriptBelow(d, [e], showAll) ==> HasScript(e, showAll)
  {
    if more, f :| Shown(d, [e] + more, f, showAll) {
      assert ([e] + more)[1..] == more;
      assert Shown(e, more, f, showAll);
    }
  }

  // It is so of two documentations which differ after 40 characters only.
  lemma LongTitlesAreEqual(c: Dir, e: Dir)
    requires c.doc.Some? && e.doc.Some?
    requires
      var x, y := FirstText(Split(c.doc.value, '\n')), FirstText(Split(e.doc.value, '\n'));
      |x| > MAX_LENGTH && |y| > MAX_LENGTH && x[..MAX_LENGTH] == y[..MAX_LENGTH]
    ensures TitleOf(c) == TitleOf(e)
  {
  }

  // A directory with the same title as the one it is in: the node is linked to itself.
  lemma LinkedToItself(d: Dir, parent: Node, start: Path, showAll: bool, c: Dir, e: Dir)
    requires d.usable && c in d.dirs && IsVisited(c) && c.usable && e in c.dirs && IsVisited(e)
    requires TitleOf(c) == TitleOf(e) && HasScript(e, showAll)
    ensures InMenu(d, parent, start, showAll, Link(DirNode(TitleOf(c)), DirNode(TitleOf(c))))
  {
    var node := DirNode(TitleOf(c));
    assert FromDir(e, node, start + [c.name], showAll, Link(node, node));
    ChildIsInMenu(c, e, node, start + [c.name], showAll, Link(node, node));
    ChildIsInMenu(d, c, parent, start, showAll, Link(node, node));
  }

  // ---- the shape of the menu ----

  ghost predicate HasParent(d: Dir, parent: Node, start: Path, showAll: bool, node: Node)
  {
    exists above :: InMenu(d, parent, start, showAll, Link(above, node))
  }

  // Every link hangs from the parent, or from a directory which is linked too.
  lemma LinksChainBack(d: Dir, parent: Node, start: Path, showAll: bool, t: Triple)
    requires InMenu(d, parent, start, showAll, t)
    ensures
      if t.Link? then t.parent == parent || HasParent(d, parent, start, showAll, t.parent)
      else HasParent(d, parent, start, showAll, t.node)
  {
    var way, f :| IsTrail(d, parent, start, showAll, way, f, t);
    if IsLinkOn(parent, way, t) {
      var n :| 0 < n <= |way| && t == LinkTo(parent, way[..n]);
      LinkParent(parent, way, n);
      DirHasParent(d, parent, start, showAll, way, f, n - 1);
    } else {
      ScriptTripleIs(NodeAt(parent, way), start + Names(way), f, t);
      ScriptHasParent(d, parent, start, showAll, way, f);
    }
  }

  lemma ScriptTripleIs(parent: Node, path: Path, f: File, t: Triple)
    requires IsPython(f.name) && t in ScriptTriples(parent, path, f)
    ensures if t.Link? then t.parent == parent else t.node == ScriptNode(path, f.name)
  {
  }

  lemma LinkParent(parent: Node, way: seq<Dir>, n: nat)
    requires 0 < n <= |way|
    ensures LinkTo(parent, way[..n]) == Link(NodeAt(parent, way[..n - 1]), NodeAt(parent, way[..n]))
    ensures n == 1 ==> NodeAt(parent, way[..n - 1]) == parent
  {
    assert way[..n][..n - 1] == way[..n - 1];
  }

  // The directories on the way to a script.
  lemma DirHasParent(d: Dir, parent: Node, start: Path, showAll: bool, way: seq<Dir>, f: File, n: nat)
    requires IsPython(f.name) && Shown(d, way, f, showAll) && n <= |way|
    ensures n > 0 ==> HasParent(d, parent, start, showAll, NodeAt(parent, way[..n]))
  {
    if n > 0 {
      LinkParent(parent, way, n);
      assert IsLinkOn(parent, way, LinkTo(parent, way[..n]));
      assert IsTrail(d, parent, start, showAll, way, f, LinkTo(parent, way[..n]));
    }
  }

  lemma ScriptHasParent(d: Dir, parent: Node, start: Path, showAll: bool, way: seq<Dir>, f: File)
    requires IsPython(f.name) && Shown(d, way, f, showAll)
    ensures HasParent(d, parent, start, showAll, ScriptNode(start + Names(way), f.name))
    ensures NodeAt(parent, way) == parent || HasParent(d, parent, start, showAll, NodeAt(parent, way))
  {
    assert way[..|way|] == way;
    DirHasParent(d, parent, start, showAll, way, f, |way|);
    assert IsTrail(d, parent, start, showAll, way, f, Link(NodeAt(parent, way), ScriptNode(start + Names(way), f.name)));
  }

  // With different titles the directories make a tree: each one has one parent.
  lemma OneParent(d: Dir, start: Path, showAll: bool, a: Node, b: Node, child: Node)
    requires DistinctTitles(d) && child.DirNode?
    requires InMenu(d, StartNode, start, showAll, Link(a, child)) && InMenu(d, StartNode, start, showAll, Link(b, child))
    ensures a == b
  {
    var way := WayOfLink(d, start, showAll, a, child);
    var other := WayOfLink(d, start, showAll, b, child);
  }

  lemma WayOfLink(d: Dir, start: Path, showAll: bool, a: Node, child: Node) returns (way: seq<Dir>)
    requires child.DirNode? && InMenu(d, StartNode, start, showAll, Link(a, child))
    ensures way != [] && IsWay(d, way) && LinkTo(StartNode, way) == Link(a, child)
  {
    way := LinkHasScript(d, StartNode, start, showAll, Link(a, child));
    var more, f :| Shown(d, way + more, f, showAll);
    WayToScript(d, way, more, f, showAll);
  }

  // ---- the program ----

  class Menu {
    const showAll: bool
    var graph: set<Triple>

    constructor (showAll: bool)
      ensures this.showAll == showAll && graph == {}
    {
      this.showAll := showAll;
      graph := {};
    }

    // The scripts of one directory.
    method AddScript(f: File, parent: Node, start: Path) returns (added: bool)
      modifies this
      ensures added == IsShown(f, showAll)
      ensures forall t :: t in graph <==> t in old(graph) || FromFile(f, parent, start, showAll, t)
    {
      if !IsPython(f.name) {
        return false;
      }
      if !f.imports && !showAll {
        return false;
      }
      var failed := !f.imports || !f.usable;
      if !showAll && failed {
        return false;
      }
      var node := ScriptNode(start, f.name);
      var text := FromModuleToDoc(if f.imports then f.doc else None, f.name[..|f.name| - 3]);
      graph := graph + {Link(parent, node)} + {Info(node, text)};
      if failed {
        graph := graph + {Error(node)};
      }
      added := true;
    }

    method AddScripts(files: seq<File>, parent: Node, start: Path) returns (added: bool)
      modifies this
      ensures added <==> exists f :: f in files && IsShown(f, showAll)
      ensures forall t :: t in graph <==> t in old(graph) || exists f :: f in files && FromFile(f, parent, start, showAll, t)
    {
      added := false;
      for i := 0 to |files|
        invariant added <==> exists f :: f in files[..i] && IsShown(f, showAll)
        invariant forall t :: t in graph <==> t in old(graph) || exists f :: f in files[..i] && FromFile(f, parent, start, showAll, t)
      {
        var one := AddScript(files[i], parent, start);
        added := added || one;
        assert files[..i + 1] == files[..i] + [files[i]];
      }
      assert files[..|files|] == files;
    }

    // Whether something was added for this directory.
    method DirToMenuAux(d: Dir, parent: Node, start: Path) returns (added: bool)
      modifies this
      ensures added <==> HasScript(d, showAll)
      ensures forall t :: t in graph <==> t in old(graph) || InMenu(d, parent, start, showAll, t)
      ensures !added ==> graph == old(graph)
      decreases d, 1
    {
      ScriptComesFrom(d, showAll);
      forall t ensures InMenu(d, parent, start, showAll, t) <==> InMenuByParts(d, parent, start, showAll, t) {
        MenuSplits(d, parent, start, showAll, t);
      }
      if !d.usable {
        return false;
      }
      var containsSomething := AddDirs(d, parent, start);
      added := AddScripts(d.files, parent, start);
      added := containsSomething || added;
    }

    method AddDirs(d: Dir, parent: Node, start: Path) returns (containsSomething: bool)
      modifies this
      ensures containsSomething <==> exists c :: c in d.dirs && IsVisited(c) && HasScript(c, showAll)
      ensures forall t :: t in graph <==> t in old(graph) || FromDirs(d.dirs, parent, start, showAll, t)
      decreases d, 0
    {
      containsSomething := false;
      for i := 0 to |d.dirs|
        invariant containsSomething <==> exists c :: c in d.dirs[..i] && IsVisited(c) && HasScript(c, showAll)
        invariant forall t :: t in graph <==> t in old(graph) || FromDirs(d.dirs[..i], parent, start, showAll, t)
      {
        assert d.dirs[..i + 1] == d.dirs[..i] + [d.dirs[i]];
        forall t ensures FromDirs(d.dirs[..i + 1], parent, start, showAll, t) <==>
            FromDirs(d.dirs[..i], parent, start, showAll, t) || FromDir(d.dirs[i], parent, start, showAll, t)
        {
          OneMoreDir(d.dirs[..i], d.dirs[i], parent, start, showAll, t);
        }
        var somethingAdded := AddDir(d.dirs[i], parent, start);
        containsSomething := containsSomething || somethingAdded;
      }
      assert d.dirs[..|d.dirs|] == d.dirs;
    }

    // The directory is linked only if it contains a script.
    method AddDir(c: Dir, parent: Node, start: Path) returns (somethingAdded: bool)
      modifies this
      ensures somethingAdded <==> IsVisited(c) && HasScript(c, showAll)
      ensures forall t :: t in graph <==> t in old(graph) || FromDir(c, parent, start, showAll, t)
      decreases c, 2
    {
      if !IsVisited(c) {
        return false;
      }
      var title := FromModuleToDoc(c.doc, c.name);
      somethingAdded := DirToMenuAux(c, DirNode(title), start + [c.name]);
      if somethingAdded {
        graph := graph + {Link(parent, DirNode(title))};
      }
    }
  }
}
