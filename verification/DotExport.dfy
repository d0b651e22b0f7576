/** Rdf2Dot itself: four passes which share dictionaries and write to one stream. */
module DotExport {
  import opened Text
  import opened Collections
  import opened Properties
  import opened Sorting
  import opened DotNames
  import opened DotModel
  import opened DotTables
  import opened DotStream
  import opened DotTheorems

  // A defaultdict(list), which remembers the order of its keys.
  datatype Lists = Lists(keys: seq<Term>, items: map<Term, seq<Term>>) {

    function Get(k: Term): seq<Term> { if k in items then items[k] else [] }

    function Append(k: Term, v: Term): Lists { Lists(Intern(keys, k), items[k := Get(k) + [v]]) }
  }

  // ---- facts about the labels ----

  lemma {:induction false} PositionStays(a: seq<Term>, b: seq<Term>, x: Term)
    requires a <= b && x in a
    ensures LabelIn(a, x) == LabelIn(b, x)
  {
    PositionPrefix(a, b, x);
  }

  lemma {:induction false} PositionPrefix(a: seq<Term>, b: seq<Term>, x: Term)
    requires a <= b && x in a
    ensures x in b && Position(a, x) == Position(b, x)
  {
    assert a[0] == b[0] && b[0] in b;
    if a[0] != x {
      assert a[1..] <= b[1..];
      PositionPrefix(a[1..], b[1..], x);
      assert b == [b[0]] + b[1..];
    }
  }

  lemma {:induction false} PositionLast(a: seq<Term>, x: Term)
    requires x !in a
    ensures Position(a + [x], x) == |a|
  {
    if a != [] {
      assert (a + [x])[1..] == a[1..] + [x];
      PositionLast(a[1..], x);
    }
  }

  lemma LabelLast(a: seq<Term>, x: Term, nodes: seq<Term>)
    requires x !in a && a + [x] <= nodes
    ensures LabelIn(a + [x], x) == NodeLabel(|a|) == LabelIn(nodes, x)
  {
    PositionLast(a, x);
    PositionStays(a + [x], nodes, x);
  }

  lemma {:induction false} NoDupCardinality(s: seq<Term>)
    requires NoDup(s)
    ensures |set x | x in s| == |s|
  {
    if s != [] {
      var rest := s[..|s| - 1];
      NoDupCardinality(rest);
      assert s == rest + [s[|rest|]];
      assert (set x | x in s) == (set x | x in rest) + {s[|rest|]};
    }
  }

  lemma {:induction false} EarlierTables(ts: seq<Triple>, i: nat, collapsed: seq<string>)
    requires i <= |ts|
    ensures NodesOfTables(ts[..i], collapsed) <= NodesOfTables(ts, collapsed)
  {
    if i == |ts| {
      assert ts[..i] == ts;
    } else {
      var rest := ts[..|ts| - 1];
      assert rest[..i] == ts[..i];
      EarlierTables(rest, i, collapsed);
    }
  }

  lemma {:induction false} EarlierEdges(before: seq<Term>, ts: seq<Triple>, i: nat, collapsed: seq<string>)
    requires i <= |ts| && NoDup(before)
    ensures NodesOfEdges(before, ts[..i], collapsed) <= NodesOfEdges(before, ts, collapsed)
  {
    if i == |ts| {
      assert ts[..i] == ts;
    } else {
      var rest := ts[..|ts| - 1];
      assert rest[..i] == ts[..i];
      EarlierEdges(before, rest, i, collapsed);
    }
  }

  // The triples of a prefix, one at a time.
  lemma Prefix(ts: seq<Triple>, i: nat)
    requires i < |ts|
    ensures ts[..i + 1] == ts[..i] + [ts[i]]
    ensures (ts[..i] + [ts[i]])[..i] == ts[..i]
  {
  }

  // ---- the dictionary of the owners, by labels ----

  function Labelled(nodes: seq<Term>, os: seq<Owner<Term>>): (r: seq<Owner<string>>)
  {
    if os == [] then [] else [Owner(os[0].prop, LabelIn(nodes, os[0].subj))] + Labelled(nodes, os[1..])
  }

  lemma {:induction false} LabelledAssign(nodes: seq<Term>, os: seq<Owner<Term>>, prop: string, subj: Term)
    ensures Labelled(nodes, Assign(os, prop, subj)) == Assign(Labelled(nodes, os), prop, LabelIn(nodes, subj))
  {
    if os != [] && os[0].prop != prop {
      LabelledAssign(nodes, os[1..], prop, subj);
    }
  }

  lemma {:induction false} LabelledLookup(nodes: seq<Term>, os: seq<Owner<Term>>, prop: string)
    ensures Lookup(Labelled(nodes, os), prop) == Labelled(nodes, Lookup(os, prop))
  {
    if os != [] && os[0].prop != prop {
      LabelledLookup(nodes, os[1..], prop);
    }
  }

  // owners is the dictionary by labels of the dictionaries which os gives to the terms of order
  ghost predicate OwnersMatch(nodes: seq<Term>, order: seq<Term>, owners: map<string, seq<Owner<string>>>, os: Term -> seq<Owner<Term>>)
  {
    && order <= nodes
    && (forall x :: x in order ==> (LabelIn(nodes, x) in owners <==> os(x) != []))
    && (forall x :: x in order && os(x) != [] ==> owners[LabelIn(nodes, x)] == Labelled(nodes, os(x)))
    && (forall name :: name in owners ==> exists x :: x in order && LabelIn(nodes, x) == name)
  }

  // More labels, same owners.
  lemma OwnersMatchMore(nodes: seq<Term>, order: seq<Term>, order': seq<Term>, owners: map<string, seq<Owner<string>>>, os: Term -> seq<Owner<Term>>)
    requires OwnersMatch(nodes, order, owners, os)
    requires order <= order' <= nodes
    requires forall x :: x in order' && x !in order ==> os(x) == []
    ensures OwnersMatch(nodes, order', owners, os)
  {
    forall x | x in order' && x !in order ensures LabelIn(nodes, x) !in owners {
      if LabelIn(nodes, x) in owners {
        var y :| y in order && LabelIn(nodes, y) == LabelIn(nodes, x);
        LabelInInjective(nodes, x, y);
      }
    }
  }

  // One entry added or replaced.
  lemma OwnersMatchAssign(
    nodes: seq<Term>, order: seq<Term>, owners: map<string, seq<Owner<string>>>,
    os: Term -> seq<Owner<Term>>, os': Term -> seq<Owner<Term>>, prop: string, subj: Term, obj: Term)
    requires OwnersMatch(nodes, order, owners, os)
    requires subj in order && obj in order
    requires os'(obj) == Assign(os(obj), prop, subj) && forall x :: x != obj ==> os'(x) == os(x)
    ensures
      var name := LabelIn(nodes, obj);
      var before := if name in owners then owners[name] else [];
      OwnersMatch(nodes, order, owners[name := Assign(before, prop, LabelIn(nodes, subj))], os')
  {
    var name := LabelIn(nodes, obj);
    var before := if name in owners then owners[name] else [];
    var after := owners[name := Assign(before, prop, LabelIn(nodes, subj))];
    LabelledAssign(nodes, os(obj), prop, subj);
    forall x | x in order
      ensures LabelIn(nodes, x) in after <==> os'(x) != []
      ensures os'(x) != [] ==> after[LabelIn(nodes, x)] == Labelled(nodes, os'(x))
    {
      if x != obj {
        OtherLabel(nodes, x, obj);
      }
    }
    assert obj in order && LabelIn(nodes, obj) == name;
    forall n | n in after && n != name ensures exists x :: x in order && LabelIn(nodes, x) == n {
      assert n in owners;
    }
  }

  lemma OtherLabel(nodes: seq<Term>, x: Term, y: Term)
    requires x in nodes && y in nodes && x != y
    ensures LabelIn(nodes, x) != LabelIn(nodes, y)
  {
    if LabelIn(nodes, x) == LabelIn(nodes, y) {
      LabelInInjective(nodes, x, y);
    }
  }

  // A term has no owner before it is labelled.
  lemma OwnersOfLabelled(ts: seq<Triple>, collapsed: seq<string>, x: Term)
    ensures OwnersOf(ts, collapsed, x) != [] ==> x in NodesOfTables(ts, collapsed)
  {
    OwnersAre(ts, collapsed, x);
    var os := OwnersOf(ts, collapsed, x);
    if os != [] {
      var o := os[0];
      assert o in os;
      var t :| t in ts && t.prop in collapsed && ShortPropName(t.prop) == o.prop && t.subj == o.subj && t.obj == x;
    }
  }

  ghost function OwnersBy(ts: seq<Triple>, collapsed: seq<string>): Term -> seq<Owner<Term>>
  {
    x => OwnersOf(ts, collapsed, x)
  }

  function Recorded(owners: map<string, seq<Owner<string>>>, objNam: string, propNam: string, subjNam: string): map<string, seq<Owner<string>>>
  {
    owners[objNam := Assign(if objNam in owners then owners[objNam] else [], propNam, subjNam)]
  }

  // The effect of one collapsed triple on the owners.
  lemma OwnersMatchStep(nodes: seq<Term>, ts: seq<Triple>, t: Triple, collapsed: seq<string>, owners: map<string, seq<Owner<string>>>)
    requires t.prop in collapsed && NodesOfTables(ts + [t], collapsed) <= nodes
    requires OwnersMatch(nodes, NodesOfTables(ts, collapsed), owners, OwnersBy(ts, collapsed))
    ensures
      OwnersMatch(nodes, NodesOfTables(ts + [t], collapsed),
        Recorded(owners, LabelIn(nodes, t.obj), ShortPropName(t.prop), LabelIn(nodes, t.subj)), OwnersBy(ts + [t], collapsed))
  {
    assert (ts + [t])[..|ts|] == ts;
    var order, order' := NodesOfTables(ts, collapsed), NodesOfTables(ts + [t], collapsed);
    forall x | x in order' && x !in order ensures OwnersBy(ts, collapsed)(x) == [] {
      OwnersOfLabelled(ts, collapsed, x);
    }
    OwnersMatchMore(nodes, order, order', owners, OwnersBy(ts, collapsed));
    OwnersMatchAssign(nodes, order', owners, OwnersBy(ts, collapsed), OwnersBy(ts + [t], collapsed), ShortPropName(t.prop), t.subj, t.obj);
  }

  // ---- fieldsSet ----

  function GetFields(fields: map<Term, seq<Field>>, x: Term): seq<Field> { if x in fields then fields[x] else [] }

  function WithFields(fields: map<Term, seq<Field>>, x: Term, more: seq<Field>): map<Term, seq<Field>>
  {
    if more == [] then fields else fields[x := GetFields(fields, x) + more]
  }

  lemma WithFieldsIs(fields: map<Term, seq<Field>>, x: Term, more: seq<Field>)
    ensures forall y :: GetFields(WithFields(fields, x, more), y) == GetFields(fields, y) + if x == y then more else []
  {
  }

  class Exporter {
    const g: Graph

    var labels: map<Term, string>                       // dictRdf2Dot
    var order: seq<Term>                                // its keys, in order of insertion
    var owners: map<string, seq<Owner<string>>>         // dictCollapsedObjectLabelsToSubjectLabels
    var tables: map<string, Lists>                      // dictPropsCollapsedSubjectsToObjectLists
    var fields: map<Term, seq<Field>>                   // fieldsSet
    var stream: seq<Stmt>

    ghost predicate LabelsValid()
      reads `labels, `order
    {
      && NoDup(order)
      && labels.Keys == (set x | x in order)
      && forall x :: x in order ==> labels[x] == LabelIn(order, x)
    }

    constructor (graph: Graph)
      ensures g == graph
      ensures LabelsValid() && order == []
      ensures owners == map[] && fields == map[] && stream == []
      ensures TablesValid([])
    {
      g := graph;
      labels, order, owners, fields, stream := map[], [], map[], map[], [];
      tables := map p | p in graph.collapsed :: ShortPropName(p) := Lists([], map[]);
    }

    method RdfNodeToDotLabel(x: Term, ghost nodes: seq<Term>) returns (nodelabel: string)
      requires LabelsValid() && Intern(order, x) <= nodes
      modifies `labels, `order
      ensures LabelsValid()
      ensures order == Intern(old(order), x)
      ensures nodelabel == LabelIn(nodes, x)
    {
      if x in labels {
        PositionStays(order, nodes, x);
        return labels[x];
      }
      nodelabel := NodeLabel(|labels|);
      NoDupCardinality(order);
      LabelLast(order, x, nodes);
      forall y | y in order ensures LabelIn(order + [x], y) == LabelIn(order, y) {
        PositionStays(order, order + [x], y);
      }
      labels := labels[x := nodelabel];
      order := order + [x];
    }

    // ---- first pass: the collapsed triples ----

    ghost predicate TablesValid(ts: seq<Triple>)
      reads `tables
    {
      && tables.Keys == (set p | p in g.collapsed :: ShortPropName(p))
      && forall p :: p in tables ==>
        && tables[p].keys == SubjectsOf(ts, g.collapsed, p)
        && forall s :: tables[p].Get(s) == Listed(ts, g.collapsed, p, s)
    }

    method RecordTable(propNam: string, t: Triple, ghost ts: seq<Triple>)
      requires TablesValid(ts)
      requires t.prop in g.collapsed && propNam == ShortPropName(t.prop)
      modifies `tables
      ensures TablesValid(ts + [t])
    {
      assert (ts + [t])[..|ts|] == ts;
      tables := tables[propNam := tables[propNam].Append(t.subj, t.obj)];
    }

    // The KeyError of the first entry of an object creates its dictionary.
    method RecordOwner(objNam: string, propNam: string, subjNam: string)
      modifies `owners
      ensures owners == Recorded(old(owners), objNam, propNam, subjNam)
    {
      if objNam in owners {
        owners := owners[objNam := Assign(owners[objNam], propNam, subjNam)];
      } else {
        owners := owners[objNam := []];
        owners := owners[objNam := Assign(owners[objNam], propNam, subjNam)];
      }
    }

    method Collapse(t: Triple, ghost ts: seq<Triple>, ghost nodes: seq<Term>)
      requires LabelsValid() && order == NodesOfTables(ts, g.collapsed)
      requires TablesValid(ts)
      requires t.prop in g.collapsed && NodesOfTables(ts + [t], g.collapsed) <= nodes
      modifies `labels, `order, `owners, `tables
      ensures LabelsValid() && order == NodesOfTables(ts + [t], g.collapsed)
      ensures owners == Recorded(old(owners), LabelIn(nodes, t.obj), ShortPropName(t.prop), LabelIn(nodes, t.subj))
      ensures TablesValid(ts + [t])
    {
      assert (ts + [t])[..|ts|] == ts;
      var subjNam := RdfNodeToDotLabel(t.subj, nodes);
      var propNam := ShortPropName(t.prop);
      RecordTable(propNam, t, ts);
      var objNam := RdfNodeToDotLabel(t.obj, nodes);
      RecordOwner(objNam, propNam, subjNam);
    }

    method FirstPass(ghost nodes: seq<Term>)
      requires LabelsValid() && order == [] && owners == map[] && TablesValid([])
      requires NodesOfTables(g.triples, g.collapsed) <= nodes
      modifies `labels, `order, `owners, `tables
      ensures LabelsValid() && order == NodesOfTables(g.triples, g.collapsed)
      ensures OwnersMatch(nodes, order, owners, g.Owners) && TablesValid(g.triples)
    {
      var ts := g.triples;
      for i := 0 to |ts|
        invariant LabelsValid() && order == NodesOfTables(ts[..i], g.collapsed)
        invariant OwnersMatch(nodes, order, owners, OwnersBy(ts[..i], g.collapsed)) && TablesValid(ts[..i])
      {
        Prefix(ts, i);
        EarlierTables(ts, i + 1, g.collapsed);
        if ts[i].prop in g.collapsed {
          OwnersMatchStep(nodes, ts[..i], ts[i], g.collapsed, owners);
          Collapse(ts[i], ts[..i], nodes);
        } else {
          assert forall x :: OwnersBy(ts[..i + 1], g.collapsed)(x) == OwnersBy(ts[..i], g.collapsed)(x);
        }
      }
      assert ts[..|ts|] == ts;
    }

    // ---- second pass: edges and fields ----

    // Every term has its final owners; a term without a label yet has none.
    ghost predicate OwnersComplete(nodes: seq<Term>)
      reads `owners
    {
      OwnersMatch(nodes, nodes, owners, g.Owners)
    }

    // The KeyError of the source is a result which is not found.
    method SubjNamFromCollapsed(collapsPropNam: string, subjNam: string) returns (found: bool, newSubjNam: string)
      ensures found <==> subjNam in owners && Lookup(owners[subjNam], collapsPropNam) != []
      ensures found ==> newSubjNam == PortName(TableName(collapsPropNam, Lookup(owners[subjNam], collapsPropNam)[0].subj), subjNam)
    {
      if subjNam !in owners {
        return false, "";
      }
      var owner := Lookup(owners[subjNam], collapsPropNam);
      if owner == [] {
        return false, "";
      }
      return true, PortName(TableName(collapsPropNam, owner[0].subj), subjNam);
    }

    // prop holds at most one property
    method RdfNodeToDotLabelExtended(x: Term, prop: seq<string>, ghost nodes: seq<Term>) returns (name: string)
      requires LabelsValid() && Intern(order, x) <= nodes == g.Nodes() && OwnersComplete(nodes)
      requires |prop| <= 1
      modifies `labels, `order
      ensures LabelsValid() && order == Intern(old(order), x)
      ensures name == g.Endpoint(x, if prop == [] then [] else [ShortPropName(prop[0])])
    {
      name := RdfNodeToDotLabel(x, nodes);
      if name in owners {
        name := PortOfOwner(x, name, prop, nodes);
      }
    }

    // The name of the property is preferred, if it is known.
    method PortOfOwner(ghost x: Term, objNam: string, prop: seq<string>, ghost nodes: seq<Term>) returns (name: string)
      requires nodes == g.Nodes() && OwnersComplete(nodes)
      requires x in nodes && objNam == LabelIn(nodes, x) && objNam in owners
      requires |prop| <= 1
      ensures name == g.Endpoint(x, if prop == [] then [] else [ShortPropName(prop[0])])
    {
      var dictOfProps := owners[objNam];
      var owner := dictOfProps[0];
      PickLabelled(nodes, g.Owners(x), if prop == [] then [] else [ShortPropName(prop[0])]);
      if prop != [] {
        var found := Lookup(dictOfProps, ShortPropName(prop[0]));
        if found != [] {
          owner := found[0];
        }
      }
      return PortName(TableName(owner.prop, owner.subj), objNam);
    }

    lemma PickLabelled(nodes: seq<Term>, os: seq<Owner<Term>>, prop: seq<string>)
      requires os != []
      ensures
        var named := Labelled(nodes, os);
        var o := g.Pick(os, prop);
        && named != []
        && (if prop != [] && Lookup(named, prop[0]) != [] then Lookup(named, prop[0])[0] else named[0])
          == Owner(o.prop, LabelIn(nodes, o.subj))
    {
      if prop != [] {
        LabelledLookup(nodes, os, prop[0]);
      }
    }

    // The subject of an edge is never renamed by SubjNamFromCollapsed: if it is in a table its
    // name is already a port, and a port is not a key of the dictionary.
    lemma RenameNeverFires(x: Term, nodes: seq<Term>)
      requires nodes == g.Nodes() && OwnersComplete(nodes) && x in nodes
      ensures g.Endpoint(x, []) !in owners
    {
      if g.Endpoint(x, []) in owners {
        var y :| y in nodes && LabelIn(nodes, y) == g.Endpoint(x, []);
        LabelHasNoColon(g, y);
        if g.Owners(x) == [] {
          LabelInInjective(nodes, x, y);
        } else {
          var o := g.Pick(g.Owners(x), []);
          PortHasColon(g.TableOf(o.prop, o.subj), g.Label(x));
        }
      }
    }

    method AddField(subj: Term, prop: string, obj: Term)
      modifies `fields
      ensures fields == WithFields(old(fields), subj, [Field(prop, obj)])
    {
      fields := fields[subj := GetFields(fields, subj) + [Field(prop, obj)]];
    }

    // Two triples which say the same in both directions are written once.
    method DrawSocket(t: Triple, subjNam: string, ghost nodes: seq<Term>)
      requires LabelsValid() && Intern(order, t.obj) <= nodes == g.Nodes() && OwnersComplete(nodes)
      requires t.prop == SOCKET_END && t.prop !in g.collapsed && t.obj.Link?
      requires subjNam == g.Endpoint(t.subj, [])
      modifies `labels, `order, `stream
      ensures LabelsValid() && order == Intern(old(order), t.obj)
      ensures stream == old(stream) + g.EdgeOf(t)
    {
      var objNam := ObjectName(t, nodes);
      if Triple(t.obj, t.prop, t.subj) in g.triples {
        if Less(subjNam, objNam) {
          stream := stream + [Edge(subjNam, objNam, true, t.prop)];
        }
      } else {
        stream := stream + [Edge(subjNam, objNam, false, t.prop)];
      }
    }

    method DrawLink(t: Triple, subjNam: string, ghost nodes: seq<Term>)
      requires LabelsValid() && Intern(order, t.obj) <= nodes == g.Nodes() && OwnersComplete(nodes)
      requires t.prop != SOCKET_END && t.prop !in g.collapsed && DrawsObject(t)
      requires t.subj in nodes && subjNam == g.Endpoint(t.subj, [])
      modifies `labels, `order, `stream
      ensures LabelsValid() && order == Intern(old(order), t.obj)
      ensures stream == old(stream) + g.EdgeOf(t)
    {
      var edge := LinkStatement(t, subjNam, nodes);
      LinkEdge(t);
      stream := stream + [edge];
    }

    method LinkStatement(t: Triple, subjNam: string, ghost nodes: seq<Term>) returns (edge: Stmt)
      requires LabelsValid() && Intern(order, t.obj) <= nodes == g.Nodes() && OwnersComplete(nodes)
      requires t.prop != SOCKET_END && t.prop !in g.collapsed && DrawsObject(t)
      requires t.subj in nodes && subjNam == g.Endpoint(t.subj, [])
      modifies `labels, `order
      ensures LabelsValid() && order == Intern(old(order), t.obj)
      ensures edge == Edge(g.Endpoint(t.subj, []), g.Endpoint(t.obj, [ShortPropName(t.prop)]), false, t.prop)
    {
      var objNam := ObjectName(t, nodes);
      var name := RenamedSubject(t, subjNam, nodes);
      edge := Edge(name, objNam, false, t.prop);
    }

    method ObjectName(t: Triple, ghost nodes: seq<Term>) returns (name: string)
      requires LabelsValid() && Intern(order, t.obj) <= nodes == g.Nodes() && OwnersComplete(nodes)
      modifies `labels, `order
      ensures LabelsValid() && order == Intern(old(order), t.obj)
      ensures name == g.Endpoint(t.obj, [ShortPropName(t.prop)])
    {
      name := RdfNodeToDotLabelExtended(t.obj, [t.prop], nodes);
    }

    lemma LinkEdge(t: Triple)
      requires t.prop != SOCKET_END && t.prop !in g.collapsed && DrawsObject(t)
      ensures g.EdgeOf(t) == [Edge(g.Endpoint(t.subj, []), g.Endpoint(t.obj, [ShortPropName(t.prop)]), false, t.prop)]
    {
    }

    // The name of the subject never is the one of an object which is in a table.
    method RenamedSubject(t: Triple, subjNam: string, ghost nodes: seq<Term>) returns (name: string)
      requires nodes == g.Nodes() && OwnersComplete(nodes) && t.subj in nodes && subjNam == g.Endpoint(t.subj, [])
      ensures name == subjNam
    {
      RenameNeverFires(t.subj, nodes);
      var found, renamed := SubjNamFromCollapsed(ShortPropName(t.prop), subjNam);
      name := if found then renamed else subjNam;
    }

    // A triple whose object is a link, and whose subject has just been named.
    method AddLink(t: Triple, subjNam: string, ghost nodes: seq<Term>)
      requires LabelsValid() && nodes == g.Nodes() && OwnersComplete(nodes)
      requires t.prop !in g.collapsed && t.obj.Link?
      requires t.subj in nodes && subjNam == g.Endpoint(t.subj, [])
      requires DrawsObject(t) ==> Intern(order, t.obj) <= nodes
      modifies `labels, `order, `fields, `stream
      ensures LabelsValid()
      ensures order == if DrawsObject(t) then Intern(old(order), t.obj) else old(order)
      ensures stream == old(stream) + g.EdgeOf(t)
      ensures fields == WithFields(old(fields), t.subj, FieldsIn(t))
    {
      SocketEndIsNotFlat();
      if t.prop == SOCKET_END {
        DrawSocket(t, subjNam, nodes);
      } else if t.prop in FLAT_PROPERTIES {
        AddField(t.subj, t.prop, t.obj);
      } else {
        DrawLink(t, subjNam, nodes);
      }
    }

    method AddTriple(t: Triple, ghost nodes: seq<Term>)
      requires LabelsValid() && nodes == g.Nodes() && OwnersComplete(nodes)
      requires t in g.triples && t.prop !in g.collapsed
      requires OrderAfter(order, t) <= nodes
      modifies `labels, `order, `fields, `stream
      ensures LabelsValid() && order == OrderAfter(old(order), t)
      ensures stream == old(stream) + g.EdgeOf(t)
      ensures fields == WithFields(old(fields), t.subj, FieldsIn(t))
    {
      SocketEndIsNotFlat();
      var subjNam := RdfNodeToDotLabelExtended(t.subj, [], nodes);
      if t.obj.Link? {
        AddLink(t, subjNam, nodes);
      } else if t.obj.Nothing? {
        AddField(t.subj, t.prop, Literal("Null"));
      } else {
        AddField(t.subj, t.prop, t.obj);
      }
    }

    ghost function OrderAfter(before: seq<Term>, t: Triple): seq<Term>
    {
      if t.prop in g.collapsed then before
      else if DrawsObject(t) then Intern(Intern(before, t.subj), t.obj)
      else Intern(before, t.subj)
    }

    ghost function FieldsIn(t: Triple): seq<Field>
    {
      if IsField(t, g.collapsed) then [Field(t.prop, FieldValue(t.obj))] else []
    }

    // The state after the first i triples; first is the order left by the first pass.
    ghost predicate SecondPassAt(i: nat, first: seq<Term>)
      requires i <= |g.triples| && NoDup(first)
      reads `order, `stream, `fields
    {
      && order == NodesOfEdges(first, g.triples[..i], g.collapsed)
      && stream == g.EdgesOf(g.triples[..i])
      && forall x :: GetFields(fields, x) == FieldsOf(g.triples[..i], g.collapsed, x)
    }

    method SecondPassStep(i: nat, ghost first: seq<Term>, ghost nodes: seq<Term>)
      requires LabelsValid() && nodes == g.Nodes() && OwnersComplete(nodes)
      requires i < |g.triples| && NoDup(first) && SecondPassAt(i, first)
      requires NodesOfEdges(first, g.triples[..i + 1], g.collapsed) <= nodes
      modifies `labels, `order, `fields, `stream
      ensures LabelsValid() && SecondPassAt(i + 1, first)
    {
      var t := g.triples[i];
      EdgesStep(first, i);
      if t.prop !in g.collapsed {
        WithFieldsIs(fields, t.subj, FieldsIn(t));
        AddTriple(t, nodes);
      }
    }

    lemma EdgesStep(first: seq<Term>, i: nat)
      requires i < |g.triples| && NoDup(first)
      ensures
        var ts, t := g.triples, g.triples[i];
        && g.EdgesOf(ts[..i + 1]) == g.EdgesOf(ts[..i]) + g.EdgeOf(t)
        && NodesOfEdges(first, ts[..i + 1], g.collapsed) == OrderAfter(NodesOfEdges(first, ts[..i], g.collapsed), t)
        && (forall x :: FieldsOf(ts[..i + 1], g.collapsed, x) ==
              FieldsOf(ts[..i], g.collapsed, x) + if t.subj == x then FieldsIn(t) else [])
    {
      Prefix(g.triples, i);
    }

    method SecondPass(ghost nodes: seq<Term>)
      requires LabelsValid() && nodes == g.Nodes() && OwnersComplete(nodes)
      requires order == NodesOfTables(g.triples, g.collapsed) && fields == map[] && stream == []
      modifies `labels, `order, `fields, `stream
      ensures LabelsValid() && order == nodes
      ensures stream == g.EdgesOf(g.triples)
      ensures forall x :: GetFields(fields, x) == g.Fields(x)
    {
      ghost var first := order;
      for i := 0 to |g.triples|
        invariant LabelsValid() && SecondPassAt(i, first)
      {
        EarlierEdges(first, g.triples, i + 1, g.collapsed);
        SecondPassStep(i, first, nodes);
      }
      assert g.triples[..|g.triples|] == g.triples;
    }

    // ---- third pass: one table a subject ----

    ghost predicate FieldsComplete()
      reads `fields
    {
      forall x :: GetFields(fields, x) == g.Fields(x)
    }

    // The union of the keys of the fields of the objects.
    method RawFieldsKeys(nodLst: seq<Term>) returns (keys: set<string>)
      requires FieldsComplete()
      ensures keys == KeysOfAll(g, nodLst)
    {
      keys := {};
      for i := 0 to |nodLst|
        invariant keys == KeysOfAll(g, nodLst[..i])
      {
        keys := keys + KeysOf(GetFields(fields, nodLst[i]));
        assert nodLst[..i + 1][..i] == nodLst[..i];
      }
      assert nodLst[..|nodLst|] == nodLst;
    }

    method FieldsKeys(nodLst: seq<Term>) returns (columns: seq<string>)
      requires FieldsComplete()
      ensures IsColumns(KeysOfAll(g, nodLst), columns)
    {
      var raw := RawFieldsKeys(nodLst);
      ghost var all := raw;
      columns := [];
      for i := 0 to |FLAT_PROPERTIES|
        invariant columns == Used(all, FLAT_PROPERTIES[..i])
        invariant raw == set k | k in all && k !in FLAT_PROPERTIES[..i]
      {
        var fldPriority := FLAT_PROPERTIES[i];
        UsedStep(all, i);
        if fldPriority in raw {
          raw := raw - {fldPriority};
          columns := columns + [fldPriority];
        }
      }
      assert FLAT_PROPERTIES[..|FLAT_PROPERTIES|] == FLAT_PROPERTIES;
      raw := raw - {INFORMATION};
      assert raw == OtherKeys(all);
      var rest := SortKeys(raw);
      assert (columns + rest)[|columns|..] == rest;
      columns := columns + rest;
    }

    // The cells of an object, in the order of the columns, and the text of its information.
    method RowOf(objUri: Term, columns: seq<string>) returns (cells: seq<Cell>, title: string)
      requires FieldsComplete()
      requires NoDup(columns) && INFORMATION !in columns
      requires forall k :: k in KeysOf(g.Fields(objUri)) && k != INFORMATION ==> k in columns
      ensures cells == CellsOf(g.Fields(objUri), columns)
      ensures title == Information(g.Fields(objUri))
    {
      var flds := GetFields(fields, objUri);
      var keyIndices := map k | k in columns :: IndexOfKey(columns, k);
      cells, title := seq(|columns|, _ => Blank), "";
      assert cells == CellsOf(flds[..0], columns);
      for i := 0 to |flds|
        invariant cells == CellsOf(flds[..i], columns)
        invariant title == Information(flds[..i])
      {
        var Field(key, val) := flds[i];
        assert flds[..i + 1][..i] == flds[..i];
        if key == INFORMATION {
          title := title + TextOf(val);
          CellsSkip(flds, i, columns);
        } else {
          assert flds[i] in flds && key in KeysOf(flds);
          CellsStep(flds, i, columns, keyIndices[key]);
          cells := cells[keyIndices[key] := Value(val)];
        }
      }
      assert flds[..|flds|] == flds;
    }

    method EntryOf(objUri: Term, columns: seq<string>) returns (titleKey: string, line: Row)
      requires FieldsComplete()
      requires LabelsValid() && order == g.Nodes() && objUri in order
      requires NoDup(columns) && INFORMATION !in columns
      requires forall k :: k in KeysOf(g.Fields(objUri)) && k != INFORMATION ==> k in columns
      ensures titleKey == RowTitle(g, objUri) && line == LineOf(g, objUri, columns)
    {
      var subObjId := labels[objUri];
      var cells, title := RowOf(objUri, columns);
      titleKey := if title != "" then title else g.titles(objUri);
      line := Line(subObjId, titleKey, cells);
    }

    method LinesOf(nodLst: seq<Term>, columns: seq<string>) returns (rows: map<string, Row>)
      requires FieldsComplete()
      requires LabelsValid() && order == g.Nodes() && forall x :: x in nodLst ==> x in order
      requires IsColumns(KeysOfAll(g, nodLst), columns)
      ensures IsRows(g, nodLst, columns, rows)
    {
      ColumnsAreTheKeys(KeysOfAll(g, nodLst), columns);
      rows := map[];
      for i := 0 to |nodLst|
        invariant IsRows(g, nodLst[..i], columns, rows)
      {
        KeysOfOne(g, nodLst, i);
        var titleKey, line := EntryOf(nodLst[i], columns);
        var titleUniq := UniqueTitle(rows, titleKey);
        RowsStep(g, nodLst, i, columns, rows, titleUniq);
        rows := rows[titleUniq := line];
      }
      assert nodLst[..|nodLst|] == nodLst;
    }

    method TableOf(propNam: string, subjUrl: Term, subjNamTab: string) returns (t: Stmt)
      requires LabelsValid() && order == g.Nodes() && TablesValid(g.triples) && FieldsComplete()
      requires propNam in tables && subjUrl in tables[propNam].items && subjNamTab == g.TableOf(propNam, subjUrl)
      requires forall x :: x in g.Rows(propNam, subjUrl) ==> x in order
      ensures IsTable(g, propNam, subjUrl, t)
    {
      var nodLst := tables[propNam].items[subjUrl];
      assert nodLst == tables[propNam].Get(subjUrl);
      var columns := FieldsKeys(nodLst);
      var rows := LinesOf(nodLst, columns);
      t := Table(subjNamTab, columns, rows["" := Header(columns)]);
    }

    // The pointer to a table, and the table.
    method WriteTable(propNam: string, subjUrl: Term, ghost nodes: seq<Term>) returns (ghost pair: seq<Stmt>)
      requires LabelsValid() && order == nodes == g.Nodes() && OwnersComplete(nodes)
      requires TablesValid(g.triples) && FieldsComplete()
      requires propNam in tables && subjUrl in tables[propNam].items && subjUrl in nodes
      requires forall x :: x in g.Rows(propNam, subjUrl) ==> x in order
      modifies `stream
      ensures stream == old(stream) + pair
      ensures |pair| == 2 && IsPair(g, Owner(propNam, subjUrl), pair[0], pair[1])
    {
      var subjNam := labels[subjUrl];
      var subjNamTab := TableName(propNam, subjNam);
      LabelledLookup(nodes, g.Owners(subjUrl), propNam);
      var found, renamed := SubjNamFromCollapsed(propNam, subjNam);
      var t := TableOf(propNam, subjUrl, subjNamTab);
      var source := if found then renamed else subjNam;
      assert source == PointerSource(g, propNam, subjUrl);
      pair := [Pointer(source, subjNamTab, propNam), t];
      stream := stream + [Pointer(source, subjNamTab, propNam), t];
    }

    method ProcessCollapsedProperties(propNam: string, ghost nodes: seq<Term>) returns (ghost blocks: seq<Stmt>)
      requires LabelsValid() && order == nodes == g.Nodes() && OwnersComplete(nodes)
      requires TablesValid(g.triples) && FieldsComplete()
      requires propNam in tables
      modifies `stream
      ensures stream == old(stream) + blocks
      ensures IsBlocks(g, Keyed(propNam, g.Subjects(propNam)), blocks)
    {
      var subjects := tables[propNam].keys;
      ghost var before := stream;
      blocks := [];
      for i := 0 to |subjects|
        invariant stream == before + blocks && IsBlocks(g, Keyed(propNam, subjects[..i]), blocks)
      {
        ghost var pair := ProcessSubject(propNam, subjects[i], nodes);
        BlocksStep(g, propNam, subjects, i, blocks, pair);
        Regroup(before, blocks, pair);
        blocks := blocks + pair;
      }
      assert subjects[..|subjects|] == subjects;
    }

    method ProcessSubject(propNam: string, subjUrl: Term, ghost nodes: seq<Term>) returns (ghost pair: seq<Stmt>)
      requires LabelsValid() && order == nodes == g.Nodes() && OwnersComplete(nodes)
      requires TablesValid(g.triples) && FieldsComplete()
      requires propNam in tables && subjUrl in tables[propNam].keys
      modifies `stream
      ensures stream == old(stream) + pair
      ensures |pair| == 2 && IsPair(g, Owner(propNam, subjUrl), pair[0], pair[1])
    {
      RowsAreLabelled(propNam, subjUrl);
      pair := WriteTable(propNam, subjUrl, nodes);
    }

    lemma RowsAreLabelled(prop: string, subj: Term)
      requires TablesValid(g.triples) && prop in tables && subj in tables[prop].keys
      ensures subj in tables[prop].items && subj in g.Nodes()
      ensures forall x :: x in g.Rows(prop, subj) ==> x in g.Nodes()
    {
      ListedIs(g.triples, g.collapsed, prop, subj);
      var objs := g.Rows(prop, subj);
      assert tables[prop].Get(subj) == objs && objs != [];
      assert objs[0] in objs;
      forall x | x in objs ensures x in g.Nodes() && subj in g.Nodes() {
        assert Collapses(g.triples, g.collapsed, prop, subj, x);
        var t :| t in g.triples && t.prop in g.collapsed && ShortPropName(t.prop) == prop && t.subj == subj && t.obj == x;
        Mentioned(g, t);
      }
    }

    method ThirdPass(ghost nodes: seq<Term>) returns (ghost blocks: seq<Stmt>)
      requires LabelsValid() && order == nodes == g.Nodes() && OwnersComplete(nodes)
      requires TablesValid(g.triples) && FieldsComplete()
      modifies `stream
      ensures stream == old(stream) + blocks
      ensures IsBlocks(g, TableKeys(g, g.collapsed), blocks)
    {
      blocks := [];
      ghost var keys, before := [], stream;
      for i := 0 to |g.collapsed|
        invariant stream == before + blocks
        invariant keys == TableKeys(g, g.collapsed[..i]) && IsBlocks(g, keys, blocks)
      {
        KeysStep(g, i);
        var propNam := ShortPropName(g.collapsed[i]);
        ghost var more := ProcessCollapsedProperties(propNam, nodes);
        ghost var newKeys := Keyed(propNam, g.Subjects(propNam));
        BlocksConcat(g, keys, blocks, newKeys, more);
        Regroup(before, blocks, more);
        keys, blocks := keys + newKeys, blocks + more;
      }
      assert g.collapsed[..|g.collapsed|] == g.collapsed;
    }

    // ---- last pass: the nodes which are in no table ----

    method DeclareNode(x: Term, ghost nodes: seq<Term>)
      requires LabelsValid() && order == nodes == g.Nodes() && OwnersComplete(nodes) && FieldsComplete()
      requires x in nodes
      modifies `stream
      ensures stream == old(stream) + if g.Owners(x) == [] then [NodeOf(g, x)] else []
    {
      var objLabel := labels[x];
      if objLabel !in owners {
        stream := stream + [Node(objLabel, multiset(GetFields(fields, x)))];
      }
    }

    method LastPass(ghost nodes: seq<Term>)
      requires LabelsValid() && order == nodes == g.Nodes() && OwnersComplete(nodes) && FieldsComplete()
      modifies `stream
      ensures stream == old(stream) + NodesDeclared(g, nodes)
    {
      var terms := order;
      ghost var before := stream;
      for i := 0 to |terms|
        invariant stream == before + NodesDeclared(g, terms[..i])
      {
        NodesStep(g, terms, i);
        Regroup(before, NodesDeclared(g, terms[..i]), if g.Owners(terms[i]) == [] then [NodeOf(g, terms[i])] else []);
        DeclareNode(terms[i], nodes);
      }
      assert terms[..|terms|] == terms;
    }

    method Rdf2Dot()
      requires LabelsValid() && order == [] && owners == map[] && fields == map[] && stream == [] && TablesValid([])
      modifies this
      ensures IsDot(g, stream)
    {
      ghost var nodes := g.Nodes();
      FirstPass(nodes);
      forall x | x in nodes && x !in order ensures g.Owners(x) == [] {
        OwnersOfLabelled(g.triples, g.collapsed, x);
      }
      OwnersMatchMore(nodes, order, nodes, owners, g.Owners);
      SecondPass(nodes);
      ghost var blocks := ThirdPass(nodes);
      LastPass(nodes);
      assert stream == g.EdgesOf(g.triples) + blocks + NodesDeclared(g, g.Nodes());
    }
  }

  // lib_export_dot.Rdf2Dot, on the sorted triples
  method Rdf2Dot(grph: Graph) returns (stream: seq<Stmt>)
    ensures IsDot(grph, stream)
  {
    var exporter := new Exporter(grph);
    exporter.Rdf2Dot();
    stream := exporter.stream;
  }

  lemma KeyedStep(prop: string, subjects: seq<Term>, i: nat)
    requires i < |subjects|
    ensures Keyed(prop, subjects[..i + 1]) == Keyed(prop, subjects[..i]) + [Owner(prop, subjects[i])]
  {
  }

  lemma KeysStep(g: Graph, i: nat)
    requires i < |g.collapsed|
    ensures
      var p := ShortPropName(g.collapsed[i]);
      TableKeys(g, g.collapsed[..i + 1]) == TableKeys(g, g.collapsed[..i]) + Keyed(p, g.Subjects(p))
  {
    assert g.collapsed[..i + 1][..i] == g.collapsed[..i];
  }

  lemma NodesStep(g: Graph, nodes: seq<Term>, i: nat)
    requires i < |nodes|
    ensures NodesDeclared(g, nodes[..i + 1]) ==
      NodesDeclared(g, nodes[..i]) + if g.Owners(nodes[i]) == [] then [NodeOf(g, nodes[i])] else []
  {
    assert nodes[..i + 1][..i] == nodes[..i];
  }

  lemma BlocksConcat(g: Graph, keys: seq<Owner<Term>>, out: seq<Stmt>, keys': seq<Owner<Term>>, out': seq<Stmt>)
    requires IsBlocks(g, keys, out) && IsBlocks(g, keys', out')
    ensures IsBlocks(g, keys + keys', out + out')
  {
    forall i: nat | i < |keys + keys'| ensures IsPairAt(g, keys + keys', out + out', i) {
      if i < |keys| {
        assert IsPairAt(g, keys, out, i);
      } else {
        assert IsPairAt(g, keys', out', i - |keys|);
      }
    }
  }

  lemma BlocksAppend(g: Graph, keys: seq<Owner<Term>>, out: seq<Stmt>, key: Owner<Term>, pair: seq<Stmt>)
    requires IsBlocks(g, keys, out) && |pair| == 2 && IsPair(g, key, pair[0], pair[1])
    ensures IsBlocks(g, keys + [key], out + pair)
  {
    assert forall i: nat :: i < 1 ==> i == 0 && IsPairAt(g, [key], pair, i);
    BlocksConcat(g, keys, out, [key], pair);
  }

  lemma BlocksStep(g: Graph, prop: string, subjects: seq<Term>, i: nat, out: seq<Stmt>, pair: seq<Stmt>)
    requires i < |subjects| && IsBlocks(g, Keyed(prop, subjects[..i]), out)
    requires |pair| == 2 && IsPair(g, Owner(prop, subjects[i]), pair[0], pair[1])
    ensures IsBlocks(g, Keyed(prop, subjects[..i + 1]), out + pair)
  {
    BlocksAppend(g, Keyed(prop, subjects[..i]), out, Owner(prop, subjects[i]), pair);
    KeyedStep(prop, subjects, i);
  }

  lemma RowsStep(g: Graph, objs: seq<Term>, i: nat, columns: seq<string>, rows: map<string, Row>, unique: string)
    requires i < |objs| && IsRows(g, objs[..i], columns, rows)
    requires IsUnique(rows.Keys, RowTitle(g, objs[i]), unique)
    ensures IsRows(g, objs[..i + 1], columns, rows[unique := LineOf(g, objs[i], columns)])
  {
    OneMoreRow(g, objs[..i], objs[i], columns, rows, unique);
    NextPrefix(objs, i);
  }

  lemma OneMoreRow(g: Graph, objs: seq<Term>, x: Term, columns: seq<string>, rows: map<string, Row>, unique: string)
    requires IsRows(g, objs, columns, rows) && IsUnique(rows.Keys, RowTitle(g, x), unique)
    ensures IsRows(g, objs + [x], columns, rows[unique := LineOf(g, x, columns)])
  {
    var more := objs + [x];
    assert more[..|more| - 1] == objs && more[|more| - 1] == x;
    assert IsRows(g, more[..|more| - 1], columns, rows) && AddsRow(g, x, columns, rows, unique, rows[unique := LineOf(g, x, columns)]);
  }

  function IndexOfKey(columns: seq<string>, k: string): (i: nat)
    requires k in columns
    ensures i < |columns| && columns[i] == k
  {
    if columns[0] == k then 0 else 1 + IndexOfKey(columns[1..], k)
  }

  lemma CellsSkip(fields: seq<Field>, i: nat, columns: seq<string>)
    requires i < |fields| && fields[i].key !in columns
    ensures CellsOf(fields[..i + 1], columns) == CellsOf(fields[..i], columns)
  {
    assert fields[..i + 1][..i] == fields[..i];
  }

  lemma CellsStep(fields: seq<Field>, i: nat, columns: seq<string>, c: nat)
    requires i < |fields| && c < |columns| && columns[c] == fields[i].key && NoDup(columns)
    ensures CellsOf(fields[..i + 1], columns) == CellsOf(fields[..i], columns)[c := Value(fields[i].value)]
  {
    assert fields[..i + 1][..i] == fields[..i];
  }

  lemma UsedStep(keys: set<string>, i: nat)
    requires i < |FLAT_PROPERTIES|
    ensures
      var k := FLAT_PROPERTIES[i];
      && FLAT_PROPERTIES[..i + 1] == FLAT_PROPERTIES[..i] + [k]
      && k !in FLAT_PROPERTIES[..i]
      && Used(keys, FLAT_PROPERTIES[..i + 1]) == Used(keys, FLAT_PROPERTIES[..i]) + if k in keys then [k] else []
  {
    FlatAreDistinct();
    UsedAppend(keys, FLAT_PROPERTIES[..i], FLAT_PROPERTIES[i]);
  }

  lemma {:induction false} UsedAppend(keys: set<string>, ordered: seq<string>, k: string)
    ensures Used(keys, ordered + [k]) == Used(keys, ordered) + if k in keys then [k] else []
  {
    if ordered != [] {
      assert (ordered + [k])[1..] == ordered[1..] + [k];
      UsedAppend(keys, ordered[1..], k);
    }
  }

  // Several objects may have the same title: a number is added to the later ones.
  method UniqueTitle(rows: map<string, Row>, title: string) returns (unique: string)
    ensures IsUnique(rows.Keys, title, unique)
  {
    var idx := 2;
    unique := title;
    ghost var untried := rows.Keys;
    while unique in rows
      invariant idx >= 2
      invariant idx == 2 ==> unique == title && untried == rows.Keys
      invariant idx > 2 ==> unique == Numbered(title, idx - 1) && title in rows
      invariant forall j: nat :: 2 <= j < idx - 1 ==> Numbered(title, j) in rows
      invariant untried <= rows.Keys
      invariant forall j: nat :: j >= idx - 1 && Numbered(title, j) in rows ==> Numbered(title, j) in untried || j < 2
      decreases if idx == 2 then 1 else 0, |untried|
    {
      if idx > 2 {
        ghost var tried := unique;
        forall j: nat | j >= idx ensures Numbered(title, j) != tried {
          if Numbered(title, j) == tried {
            NumberedInjective(title, j, idx - 1);
          }
        }
        untried := untried - {tried};
      }
      unique := Numbered(title, idx);
      idx := idx + 1;
    }
    if idx > 2 {
      assert IsFirstFree(rows.Keys, title, unique, idx - 1);
    }
  }
}
