/** Reference closure: exactly when every name used by an edge is declared in the stream. */
module DotClosure {
  import opened Text
  import opened Collections
  import opened Properties
  import opened DotNames
  import opened DotModel
  import opened DotTables
  import opened DotStream
  import opened DotTheorems

  ghost predicate Declares(s: Stmt, name: string)
  {
    || (s.Node? && s.name == name)
    || (s.Table? && (s.name == name || exists port :: name == PortName(s.name, port) && HasPort(s.rows, port)))
  }

  ghost predicate Resolves(out: seq<Stmt>, name: string) { exists s :: s in out && Declares(s, name) }

  ghost predicate Closed(out: seq<Stmt>)
  {
    forall s :: s in out && (s.Edge? || s.Pointer?) ==> Resolves(out, s.src) && Resolves(out, s.dst)
  }

  // No object of a table has an empty title.
  ghost predicate TitlesNonEmpty(g: Graph) { forall x :: g.Owners(x) != [] ==> RowTitle(g, x) != "" }

  // A subject with a table which is itself displayed in tables, is in one of the same property.
  ghost predicate TablesNest(g: Graph)
  {
    forall key :: key in TableKeys(g, g.collapsed) && g.Owners(key.subj) != [] ==> Lookup(g.Owners(key.subj), key.prop) != []
  }

  // The row of an object stays in a table, and is not the one which the header replaces.
  ghost predicate KeepsRow(g: Graph, o: Owner<Term>, x: Term)
  {
    var objs := g.Rows(o.prop, o.subj);
    exists i :: 0 <= i < |objs| && objs[i] == x && i != FirstUntitled(g, objs)
  }

  ghost predicate EndIsKept(g: Graph, x: Term, prop: seq<string>)
  {
    g.Owners(x) != [] ==> KeepsRow(g, g.Pick(g.Owners(x), prop), x)
  }

  ghost predicate SourceIsKept(g: Graph, key: Owner<Term>)
  {
    var found := Lookup(g.Owners(key.subj), key.prop);
    found != [] ==> KeepsRow(g, found[0], key.subj)
  }

  // No edge needs a row which the header replaced.
  ghost predicate RowsAreKept(g: Graph)
  {
    && (forall u :: u in g.triples && g.EdgeOf(u) != [] ==> EndIsKept(g, u.subj, []) && EndIsKept(g, u.obj, [ShortPropName(u.prop)]))
    && (forall key :: key in TableKeys(g, g.collapsed) ==> SourceIsKept(g, key))
  }

  // ---- which tables are written ----

  lemma KeyedIs(prop: string, subjects: seq<Term>, key: Owner<Term>)
    ensures key in Keyed(prop, subjects) <==> key.prop == prop && key.subj in subjects
  {
    if key.prop == prop && key.subj in subjects {
      var i :| 0 <= i < |subjects| && subjects[i] == key.subj;
      assert Keyed(prop, subjects)[i] == key;
    }
  }

  lemma {:induction false} TableKeysAre(g: Graph, props: seq<string>, key: Owner<Term>)
    ensures key in TableKeys(g, props) <==>
      key.subj in g.Subjects(key.prop) && exists p :: p in props && ShortPropName(p) == key.prop
  {
    if props != [] {
      var p, before := props[|props| - 1], props[..|props| - 1];
      TableKeysAre(g, before, key);
      KeyedIs(ShortPropName(p), g.Subjects(ShortPropName(p)), key);
      LastOrBefore(props);
    }
  }

  lemma OwnerHasTable(g: Graph, x: Term, o: Owner<Term>)
    requires o in g.Owners(x)
    ensures o in TableKeys(g, g.collapsed)
    ensures x in g.Rows(o.prop, o.subj)
  {
    OwnerIsLabelled(g, x, o);
    OwnersAre(g.triples, g.collapsed, x);
    ListedIs(g.triples, g.collapsed, o.prop, o.subj);
    var t :| t in g.triples && t.prop in g.collapsed && ShortPropName(t.prop) == o.prop && t.subj == o.subj && t.obj == x;
    TableKeysAre(g, g.collapsed, o);
  }

  lemma KeyIsLabelled(g: Graph, key: Owner<Term>)
    requires key in TableKeys(g, g.collapsed)
    ensures key.subj in g.Nodes()
    ensures forall x :: x in g.Rows(key.prop, key.subj) ==> g.Owners(x) != []
  {
    TableKeysAre(g, g.collapsed, key);
    ListedIs(g.triples, g.collapsed, key.prop, key.subj);
    var objs := g.Rows(key.prop, key.subj);
    assert objs[0] in objs;
    forall x | x in objs ensures g.Owners(x) != [] && key.subj in g.Nodes() {
      OwnersAre(g.triples, g.collapsed, x);
      assert Collapses(g.triples, g.collapsed, key.prop, key.subj, x);
      var t :| t in g.triples && t.prop in g.collapsed && ShortPropName(t.prop) == key.prop && t.subj == key.subj && t.obj == x;
      Mentioned(g, t);
    }
  }

  // ---- names which resolve ----

  lemma NodeResolves(g: Graph, out: seq<Stmt>, x: Term)
    requires IsDot(g, out) && x in g.Nodes() && g.Owners(x) == []
    ensures Resolves(out, g.Label(x))
  {
    StreamIs(g, out);
    assert Declares(NodeOf(g, x), g.Label(x));
  }

  lemma TableResolves(g: Graph, out: seq<Stmt>, key: Owner<Term>)
    requires IsDot(g, out) && key in TableKeys(g, g.collapsed)
    ensures HasTable(g, key, out)
    ensures Resolves(out, g.TableOf(key.prop, key.subj))
  {
    StreamIs(g, out);
    var s :| s in out && IsTable(g, key.prop, key.subj, s);
    assert Declares(s, g.TableOf(key.prop, key.subj));
  }

  // ---- a name which does not ----

  lemma TableIsNotNode(g: Graph, key: Owner<Term>, s: Stmt, x: Term)
    requires IsTable(g, key.prop, key.subj, s) && x in g.Nodes()
    ensures !Declares(s, g.Label(x))
  {
    assert s.name[0] == 'R' && g.Label(x)[0] == 'n';
    assert forall port :: PortName(s.name, port)[0] == 'R';
  }

  // The node of a term which is displayed in a table is never declared.
  lemma HiddenNode(g: Graph, out: seq<Stmt>, x: Term)
    requires IsDot(g, out) && x in g.Nodes() && g.Owners(x) != []
    ensures !Resolves(out, g.Label(x))
  {
    StreamIs(g, out);
    var keys := TableKeys(g, g.collapsed);
    forall s | s in out && (s.Node? || s.Table?) ensures !Declares(s, g.Label(x)) {
      if IsNode(g, g.Nodes(), s) {
        var y :| y in g.Nodes() && g.Owners(y) == [] && s == NodeOf(g, y);
        if g.Label(y) == g.Label(x) {
          LabelInjective(g, x, y);
        }
      } else if IsBlock(g, keys, s) {
        var key :| key in keys && IsBlockOf(g, key, s);
        TableIsNotNode(g, key, s, x);
      }
    }
  }

  // ---- a port ----

  lemma TableIsNotPort(g: Graph, key: Owner<Term>, o: Owner<Term>, x: Term)
    requires key.subj in g.Nodes() && o.subj in g.Nodes() && x in g.Nodes()
    ensures g.TableOf(key.prop, key.subj) != PortName(g.TableOf(o.prop, o.subj), g.Label(x))
  {
    TableNameIsNotPort(key.prop, Position(g.Nodes(), key.subj), g.TableOf(o.prop, o.subj), Position(g.Nodes(), x));
  }

  // The port of a row is declared by its own table only.
  lemma PortIsOfTable(g: Graph, key: Owner<Term>, s: Stmt, o: Owner<Term>, x: Term)
    requires IsTable(g, key.prop, key.subj, s) && Declares(s, PortName(g.TableOf(o.prop, o.subj), g.Label(x)))
    requires key in TableKeys(g, g.collapsed) && o.subj in g.Nodes() && x in g.Nodes()
    ensures key == o && HasPort(s.rows, g.Label(x))
  {
    KeyIsLabelled(g, key);
    TableIsNotPort(g, key, o, x);
    var port :| PortName(g.TableOf(o.prop, o.subj), g.Label(x)) == PortName(s.name, port) && HasPort(s.rows, port);
    var y := PortIsLabel(g, key, s, port);
    PortNameInjective(g.TableOf(o.prop, o.subj), Position(g.Nodes(), x), s.name, Position(g.Nodes(), y));
    TableNameInjective(o.prop, Position(g.Nodes(), o.subj), key.prop, Position(g.Nodes(), key.subj));
    LabelInjective(g, o.subj, key.subj);
  }

  lemma PortIsLabel(g: Graph, key: Owner<Term>, s: Stmt, port: string) returns (y: Term)
    requires IsTable(g, key.prop, key.subj, s) && HasPort(s.rows, port) && key in TableKeys(g, g.collapsed)
    ensures y in g.Nodes() && port == g.Label(y)
  {
    TablePorts(g, key.prop, key.subj, s, port);
    var objs := g.Rows(key.prop, key.subj);
    var i :| 0 <= i < |objs| && i != FirstUntitled(g, objs) && Labels(g, objs)[i] == port;
    y := objs[i];
    RowIsLabelled(g, key, y);
  }

  lemma RowIsLabelled(g: Graph, key: Owner<Term>, y: Term)
    requires y in g.Rows(key.prop, key.subj)
    ensures y in g.Nodes()
  {
    ListedIs(g.triples, g.collapsed, key.prop, key.subj);
    var t :| t in g.triples && t.prop in g.collapsed && ShortPropName(t.prop) == key.prop && t.subj == key.subj && t.obj == y;
    Mentioned(g, t);
  }

  // The table of an owner has the port of an object if and only if the row of this one is kept.
  lemma PortIffKept(g: Graph, o: Owner<Term>, s: Stmt, x: Term)
    requires IsTable(g, o.prop, o.subj, s) && x in g.Nodes()
    ensures HasPort(s.rows, g.Label(x)) <==> KeepsRow(g, o, x)
  {
    TablePorts(g, o.prop, o.subj, s, g.Label(x));
    var objs := g.Rows(o.prop, o.subj);
    if HasPort(s.rows, g.Label(x)) {
      var i :| 0 <= i < |objs| && i != FirstUntitled(g, objs) && Labels(g, objs)[i] == g.Label(x);
      RowIsLabelled(g, o, objs[i]);
      LabelInjective(g, objs[i], x);
    }
    if KeepsRow(g, o, x) {
      var i :| 0 <= i < |objs| && objs[i] == x && i != FirstUntitled(g, objs);
      assert Labels(g, objs)[i] == g.Label(x);
    }
  }

  lemma PortResolvesIffKept(g: Graph, out: seq<Stmt>, x: Term, o: Owner<Term>)
    requires IsDot(g, out) && o in g.Owners(x)
    ensures Resolves(out, PortName(g.TableOf(o.prop, o.subj), g.Label(x))) <==> KeepsRow(g, o, x)
  {
    var name := PortName(g.TableOf(o.prop, o.subj), g.Label(x));
    OwnerIsLabelled(g, x, o);
    OwnerHasTable(g, x, o);
    TableResolves(g, out, o);
    var s :| s in out && IsTable(g, o.prop, o.subj, s);
    PortIffKept(g, o, s, x);
    assert HasPort(s.rows, g.Label(x)) ==> Declares(s, name);
    if Resolves(out, name) {
      var t :| t in out && Declares(t, name);
      var key := DeclaringTable(g, out, t, x, o);
      PortIsOfTable(g, key, t, o, x);
      PortIffKept(g, o, t, x);
    }
  }

  lemma PortIsNotNode(g: Graph, table: string, x: Term, y: Term)
    ensures PortName(table, g.Label(x)) != g.Label(y)
  {
    PortHasColon(table, g.Label(x));
    LabelHasNoColon(g, y);
  }

  lemma DeclaringTable(g: Graph, out: seq<Stmt>, t: Stmt, x: Term, o: Owner<Term>) returns (key: Owner<Term>)
    requires IsDot(g, out) && t in out && Declares(t, PortName(g.TableOf(o.prop, o.subj), g.Label(x)))
    ensures key in TableKeys(g, g.collapsed) && IsTable(g, key.prop, key.subj, t)
  {
    StreamIs(g, out);
    if IsNode(g, g.Nodes(), t) {
      var y :| y in g.Nodes() && g.Owners(y) == [] && t == NodeOf(g, y);
      PortIsNotNode(g, g.TableOf(o.prop, o.subj), x, y);
    }
    assert IsBlock(g, TableKeys(g, g.collapsed), t);
    key :| key in TableKeys(g, g.collapsed) && IsBlockOf(g, key, t);
  }

  lemma EndpointResolvesIffKept(g: Graph, out: seq<Stmt>, x: Term, prop: seq<string>)
    requires IsDot(g, out) && x in g.Nodes()
    ensures Resolves(out, g.Endpoint(x, prop)) <==> EndIsKept(g, x, prop)
  {
    if g.Owners(x) == [] {
      NodeResolves(g, out, x);
    } else {
      PortResolvesIffKept(g, out, x, g.Pick(g.Owners(x), prop));
    }
  }

  // An edge to a table starts from a name which is declared.
  ghost predicate SourceIsDeclared(g: Graph, key: Owner<Term>)
  {
    (g.Owners(key.subj) != [] ==> Lookup(g.Owners(key.subj), key.prop) != []) && SourceIsKept(g, key)
  }

  lemma SourceResolvesIff(g: Graph, out: seq<Stmt>, key: Owner<Term>)
    requires IsDot(g, out) && key in TableKeys(g, g.collapsed)
    ensures Resolves(out, PointerSource(g, key.prop, key.subj)) <==> SourceIsDeclared(g, key)
  {
    KeyIsLabelled(g, key);
    var found := Lookup(g.Owners(key.subj), key.prop);
    if found != [] {
      assert found[0] in g.Owners(key.subj) && found[0].prop == key.prop;
      PortResolvesIffKept(g, out, key.subj, found[0]);
    } else if g.Owners(key.subj) == [] {
      NodeResolves(g, out, key.subj);
    } else {
      HiddenNode(g, out, key.subj);
    }
  }

  lemma EdgeResolvesIff(g: Graph, out: seq<Stmt>, u: Triple, e: Stmt)
    requires IsDot(g, out) && u in g.triples && g.EdgeOf(u) == [e]
    ensures Resolves(out, e.src) && Resolves(out, e.dst) <==> EndIsKept(g, u.subj, []) && EndIsKept(g, u.obj, [ShortPropName(u.prop)])
  {
    SocketEndIsNotFlat();
    Mentioned(g, u);
    EndpointResolvesIffKept(g, out, u.subj, []);
    EndpointResolvesIffKept(g, out, u.obj, [ShortPropName(u.prop)]);
  }

  // The main result: no name is missing if and only if the tables nest, and no edge needs a row which a header replaced.
  lemma ClosedIff(g: Graph, out: seq<Stmt>)
    requires IsDot(g, out)
    ensures Closed(out) <==> TablesNest(g) && RowsAreKept(g)
  {
    if TablesNest(g) && RowsAreKept(g) {
      NestedIsClosed(g, out);
    }
    if Closed(out) {
      ClosedIsNested(g, out);
    }
  }

  lemma NestedIsClosed(g: Graph, out: seq<Stmt>)
    requires IsDot(g, out) && TablesNest(g) && RowsAreKept(g)
    ensures Closed(out)
  {
    StreamIs(g, out);
    forall s | s in out && (s.Edge? || s.Pointer?) ensures Resolves(out, s.src) && Resolves(out, s.dst) {
      if IsEdge(g, s) {
        var u :| u in g.triples && g.EdgeOf(u) == [s];
        EdgeResolvesIff(g, out, u, s);
      } else {
        var key :| key in TableKeys(g, g.collapsed) && IsBlockOf(g, key, s);
        assert SourceIsKept(g, key);
        SourceResolvesIff(g, out, key);
        TableResolves(g, out, key);
      }
    }
  }

  lemma ClosedIsNested(g: Graph, out: seq<Stmt>)
    requires IsDot(g, out) && Closed(out)
    ensures TablesNest(g) && RowsAreKept(g)
  {
    forall u | u in g.triples && g.EdgeOf(u) != [] ensures EndIsKept(g, u.subj, []) && EndIsKept(g, u.obj, [ShortPropName(u.prop)]) {
      ClosedEdge(g, out, u);
    }
    forall key | key in TableKeys(g, g.collapsed) ensures SourceIsDeclared(g, key) {
      ClosedPointer(g, out, key);
    }
  }

  lemma ClosedEdge(g: Graph, out: seq<Stmt>, u: Triple)
    requires IsDot(g, out) && Closed(out) && u in g.triples && g.EdgeOf(u) != []
    ensures EndIsKept(g, u.subj, []) && EndIsKept(g, u.obj, [ShortPropName(u.prop)])
  {
    StreamIs(g, out);
    var e := g.EdgeOf(u)[0];
    assert g.EdgeOf(u) == [e] && e in g.EdgeOf(u) && e.Edge?;
    EdgeResolvesIff(g, out, u, e);
  }

  lemma ClosedPointer(g: Graph, out: seq<Stmt>, key: Owner<Term>)
    requires IsDot(g, out) && Closed(out) && key in TableKeys(g, g.collapsed)
    ensures SourceIsDeclared(g, key)
  {
    StreamIs(g, out);
    assert PointerOf(g, key) in out;
    SourceResolvesIff(g, out, key);
  }

  lemma TitledRowsAreKept(g: Graph)
    requires TitlesNonEmpty(g)
    ensures RowsAreKept(g)
  {
    forall x, o | o in g.Owners(x) ensures KeepsRow(g, o, x) {
      OwnerHasTable(g, x, o);
      KeyIsLabelled(g, o);
      var objs := g.Rows(o.prop, o.subj);
      var i :| 0 <= i < |objs| && objs[i] == x;
      assert i != FirstUntitled(g, objs) by {
        assert forall k :: 0 <= k < |objs| ==> objs[k] in objs;
      }
    }
  }

  // With no empty title, exactly when the tables nest.
  lemma ClosedIffTablesNest(g: Graph, out: seq<Stmt>)
    requires IsDot(g, out) && TitlesNonEmpty(g)
    ensures Closed(out) <==> TablesNest(g)
  {
    TitledRowsAreKept(g);
    ClosedIff(g, out);
  }

  lemma DanglingPointer(g: Graph, out: seq<Stmt>, key: Owner<Term>)
    requires IsDot(g, out) && key in TableKeys(g, g.collapsed)
    requires g.Owners(key.subj) != [] && Lookup(g.Owners(key.subj), key.prop) == []
    ensures !Closed(out)
  {
    StreamIs(g, out);
    KeyIsLabelled(g, key);
    HiddenNode(g, out, key.subj);
    assert PointerOf(g, key) in out && !Resolves(out, PointerOf(g, key).src);
  }

  // With one collapsed property the tables always nest: all names are declared, but those of the rows which are replaced.
  lemma OneCollapsedPropertyIsClosed(g: Graph, out: seq<Stmt>)
    requires IsDot(g, out) && |g.collapsed| == 1
    ensures Closed(out) <==> RowsAreKept(g)
    ensures TitlesNonEmpty(g) ==> Closed(out)
  {
    forall key | key in TableKeys(g, g.collapsed) && g.Owners(key.subj) != []
      ensures Lookup(g.Owners(key.subj), key.prop) != []
    {
      OneProperty(g, key);
    }
    ClosedIff(g, out);
    if TitlesNonEmpty(g) {
      TitledRowsAreKept(g);
    }
  }

  lemma OneProperty(g: Graph, key: Owner<Term>)
    requires |g.collapsed| == 1 && key in TableKeys(g, g.collapsed) && g.Owners(key.subj) != []
    ensures Lookup(g.Owners(key.subj), key.prop) != []
  {
    TableKeysAre(g, g.collapsed, key);
    var o := g.Owners(key.subj)[0];
    OwnerHasTable(g, key.subj, o);
    TableKeysAre(g, g.collapsed, o);
    assert o.prop == ShortPropName(g.collapsed[0]) == key.prop;
  }

  // Such a row: x lists y, which has no title, and another edge leads from z to y.
  lemma UntitledRowDangles(g: Graph, out: seq<Stmt>, p: string, q: string, x: Term, y: Term, z: Term)
    requires IsDot(g, out) && g.collapsed == [p] && g.IsMadeOf([Triple(x, p, y), Triple(z, q, y)])
    requires IsDrawn(g, Triple(z, q, y)) && z != y && RowTitle(g, y) == ""
    ensures !Closed(out)
  {
    var t, u := Triple(x, p, y), Triple(z, q, y);
    TwoAreListed(t, u);
    UntitledRowIsReplaced(g, t, u);
    assert !EndIsKept(g, y, [ShortPropName(q)]);
    UntitledEdge(g, t, u);
    OneCollapsedPropertyIsClosed(g, out);
  }

  lemma TwoAreListed(t: Triple, u: Triple)
    ensures forall v :: v in [t, u] <==> v == t || v == u
  {
  }

  lemma UntitledEdge(g: Graph, t: Triple, u: Triple)
    requires (forall v :: v in g.triples <==> v == t || v == u) && t.prop in g.collapsed && IsDrawn(g, u) && u.subj != u.obj
    ensures u in g.triples && g.EdgeOf(u) != []
  {
    SocketEndIsNotFlat();
    assert !g.Mutual(u);
  }

  lemma UntitledRowIsReplaced(g: Graph, t: Triple, u: Triple)
    requires NoDup(g.triples) && forall v :: v in g.triples <==> v == t || v == u
    requires g.collapsed == [t.prop] && u.prop != t.prop && RowTitle(g, t.obj) == ""
    ensures g.Owners(t.obj) != [] && forall o :: o in g.Owners(t.obj) ==> !KeepsRow(g, o, t.obj)
  {
    TripleCollapses(g.triples, g.collapsed, t);
    OwnersAre(g.triples, g.collapsed, t.obj);
    OneRow(g, t, u);
    assert FirstUntitled(g, [t.obj]) == 0;
  }

  lemma OneRow(g: Graph, t: Triple, u: Triple)
    requires NoDup(g.triples) && forall v :: v in g.triples <==> v == t || v == u
    requires g.collapsed == [t.prop] && u.prop != t.prop
    ensures g.Rows(ShortPropName(t.prop), t.subj) == [t.obj]
  {
    var short := ShortPropName(t.prop);
    var objs := g.Rows(short, t.subj);
    ListedIs(g.triples, g.collapsed, short, t.subj);
    ListedOnce(g.triples, g.collapsed, t.prop, t.subj, t.obj);
    assert forall k :: 0 <= k < |objs| ==> objs[k] in objs;
    AllTheSame(objs, t.obj);
  }

  lemma {:induction false} AllTheSame(s: seq<Term>, x: Term)
    requires forall k :: 0 <= k < |s| ==> s[k] == x
    ensures multiset(s)[x] == |s|
  {
    if s != [] {
      var before, last := s[..|s| - 1], s[|s| - 1];
      assert s == before + [last];
      AllTheSame(before, x);
    }
  }

  // With two they may not: x lists y under p, and y lists z under q.
  lemma TwoCollapsedPropertiesDangle(g: Graph, out: seq<Stmt>, p: string, q: string, x: Term, y: Term, z: Term)
    requires g.collapsed == [p, q] && ShortPropName(p) != ShortPropName(q)
    requires g.IsMadeOf([Triple(x, p, y), Triple(y, q, z)]) && y != z
    requires IsDot(g, out)
    ensures !Closed(out)
  {
    TwoAreListed(Triple(x, p, y), Triple(y, q, z));
    TwoTables(g, p, q, x, y, z);
    DanglingPointer(g, out, Owner(ShortPropName(q), y));
  }

  lemma TwoTables(g: Graph, p: string, q: string, x: Term, y: Term, z: Term)
    requires g.collapsed == [p, q] && ShortPropName(p) != ShortPropName(q) && y != z
    requires forall t :: t in g.triples <==> t == Triple(x, p, y) || t == Triple(y, q, z)
    ensures Owner(ShortPropName(q), y) in TableKeys(g, g.collapsed)
    ensures g.Owners(y) != [] && Lookup(g.Owners(y), ShortPropName(q)) == []
  {
    var ts, t, u := g.triples, Triple(x, p, y), Triple(y, q, z);
    var short := ShortPropName(q);
    TripleCollapses(ts, g.collapsed, t);
    TripleCollapses(ts, g.collapsed, u);
    OwnersOfOne(ts, g.collapsed, t, y);
    ListedIs(ts, g.collapsed, short, y);
    TableKeysAre(g, g.collapsed, Owner(short, y));
  }

  lemma TripleCollapses(ts: seq<Triple>, collapsed: seq<string>, t: Triple)
    requires t in ts && t.prop in collapsed
    ensures Collapses(ts, collapsed, ShortPropName(t.prop), t.subj, t.obj)
  {
  }

  lemma OwnersOfOne(ts: seq<Triple>, collapsed: seq<string>, t: Triple, x: Term)
    requires t in ts && t.prop in collapsed && t.obj == x
    requires forall u :: u in ts && u.obj == x ==> u == t
    ensures OwnersOf(ts, collapsed, x) != []
    ensures forall o :: o in OwnersOf(ts, collapsed, x) ==> o.prop == ShortPropName(t.prop)
  {
    TripleCollapses(ts, collapsed, t);
    OwnersAre(ts, collapsed, x);
  }

  // ---- the fields ----

  // A field is shown in the node of its subject, if this one is in no table.
  lemma FieldInNode(g: Graph, out: seq<Stmt>, t: Triple)
    requires IsDot(g, out) && t in g.triples && IsField(t, g.collapsed) && g.Owners(t.subj) == []
    ensures NodeOf(g, t.subj) in out && Field(t.prop, FieldValue(t.obj)) in NodeOf(g, t.subj).fields
  {
    Mentioned(g, t);
    StreamIs(g, out);
    FieldIn(g.triples, g.collapsed, t);
  }

  // Else it is a cell of a row of each table of its subject, where the last value of the key is the one shown;
  // the table has this row if and only if the header did not replace it.
  lemma FieldInRow(g: Graph, out: seq<Stmt>, t: Triple, o: Owner<Term>) returns (s: Stmt, column: nat)
    requires IsDot(g, out)
    requires t in g.triples && IsField(t, g.collapsed) && t.prop != INFORMATION && o in g.Owners(t.subj)
    ensures s in out && IsTable(g, o.prop, o.subj, s)
    ensures HasLine(s.rows, LineOf(g, t.subj, s.columns)) <==> KeepsRow(g, o, t.subj)
    ensures column < |s.columns| && s.columns[column] == t.prop
    ensures LineOf(g, t.subj, s.columns).cells[column] == LastValue(g.Fields(t.subj), t.prop) != Blank
  {
    OwnerHasTable(g, t.subj, o);
    OwnerIsLabelled(g, t.subj, o);
    TableResolves(g, out, o);
    s :| s in out && IsTable(g, o.prop, o.subj, s);
    LineIffKept(g, o, s, t.subj);
    column := FieldColumn(g, o, s, t);
  }

  lemma FieldColumn(g: Graph, o: Owner<Term>, s: Stmt, t: Triple) returns (column: nat)
    requires t in g.triples && IsField(t, g.collapsed) && t.prop != INFORMATION && t.subj in g.Rows(o.prop, o.subj)
    requires IsTable(g, o.prop, o.subj, s)
    ensures column < |s.columns| && s.columns[column] == t.prop
    ensures LastValue(g.Fields(t.subj), t.prop) != Blank
  {
    FieldIn(g.triples, g.collapsed, t);
    var objs := g.Rows(o.prop, o.subj);
    var i :| 0 <= i < |objs| && objs[i] == t.subj;
    KeysOfOne(g, objs, i);
    ColumnsAreTheKeys(KeysOfAll(g, objs), s.columns);
    assert t.prop in KeysOf(g.Fields(t.subj));
    column :| 0 <= column < |s.columns| && s.columns[column] == t.prop;
  }

  // A table has the line of an object if and only if it has its port.
  lemma LineIffKept(g: Graph, o: Owner<Term>, s: Stmt, x: Term)
    requires IsTable(g, o.prop, o.subj, s) && x in g.Nodes()
    ensures HasLine(s.rows, LineOf(g, x, s.columns)) <==> KeepsRow(g, o, x)
  {
    PortIffKept(g, o, s, x);
    if HasPort(s.rows, g.Label(x)) {
      var title :| title in s.rows && s.rows[title].Line? && s.rows[title].port == g.Label(x);
      var y := TableLine(g, o.prop, o.subj, s, title);
      RowIsLabelled(g, o, y);
      LabelInjective(g, x, y);
    }
  }
}
