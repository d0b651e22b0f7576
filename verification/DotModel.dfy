/** What Rdf2Dot computes, stated over the sorted triples and the list of collapsed
    properties. The functions recurse on the last triple, as the passes loop forward. */
module DotModel {
  import opened Text
  import opened Collections
  import opened Properties
  import opened DotNames

  datatype Term = Link(uri: string) | Literal(text: string) | Nothing

  datatype Triple = Triple(subj: Term, prop: string, obj: Term)

  datatype Field = Field(key: string, value: Term)

  // One entry of the dictionary of x: x is in the table of subj for the short property name prop.
  // A subject is a term in the specification, and a label in the program.
  datatype Owner<T> = Owner(prop: string, subj: T)

  datatype Cell = Blank | Value(value: Term)

  datatype Row = Header(columns: seq<string>) | Line(port: string, title: string, cells: seq<Cell>)

  // The statements written in the DOT stream. Colours, tooltips and HTML are left out.
  datatype Stmt =
    | Edge(src: string, dst: string, both: bool, prop: string)
    | Pointer(src: string, dst: string, prop: string)
    | Table(name: string, columns: seq<string>, rows: map<string, Row>)
    | Node(name: string, fields: multiset<Field>)

  // The order in which triples are sorted: subjects first, then properties, then objects. Two addresses, or two
  // properties, are compared as texts; the order of other terms is left open.
  predicate Precedes(t: Triple, u: Triple)
  {
    if t.subj != u.subj then TermPrecedes(t.subj, u.subj)
    else if t.prop != u.prop then Less(t.prop, u.prop)
    else TermPrecedes(t.obj, u.obj)
  }

  predicate TermPrecedes(x: Term, y: Term) { x.Link? && y.Link? && Less(x.uri, y.uri) }

  ghost predicate Sorted(ts: seq<Triple>) { forall i, j :: 0 <= i < j < |ts| ==> !Precedes(ts[j], ts[i]) }

  const FLAT_PROPERTIES := [NOLIST1, NOLIST2, NOLIST3]

  // Labels: a term is numbered when it is first seen.

  function Intern(nodes: seq<Term>, x: Term): (r: seq<Term>)
    ensures nodes <= r && x in r
    ensures forall y :: y in r <==> y in nodes || y == x
    ensures NoDup(nodes) ==> NoDup(r)
  {
    if x in nodes then nodes else nodes + [x]
  }

  function Position(nodes: seq<Term>, x: Term): (i: nat)
    requires x in nodes
    ensures i < |nodes| && nodes[i] == x
  {
    if nodes[0] == x then 0 else 1 + Position(nodes[1..], x)
  }

  function LabelIn(nodes: seq<Term>, x: Term): string
  {
    if x in nodes then NodeLabel(Position(nodes, x)) else ""
  }

  function NodesOfTables(ts: seq<Triple>, collapsed: seq<string>): (nodes: seq<Term>)
    ensures NoDup(nodes)
    ensures forall t :: t in ts && t.prop in collapsed ==> t.subj in nodes && t.obj in nodes
  {
    if ts == [] then [] else
      var t := ts[|ts| - 1];
      var before := NodesOfTables(ts[..|ts| - 1], collapsed);
      assert ts == ts[..|ts| - 1] + [t];
      if t.prop in collapsed then Intern(Intern(before, t.subj), t.obj) else before
  }

  predicate DrawsObject(t: Triple) { t.obj.Link? && t.prop !in FLAT_PROPERTIES }

  function NodesOfEdges(before: seq<Term>, ts: seq<Triple>, collapsed: seq<string>): (nodes: seq<Term>)
    requires NoDup(before)
    ensures NoDup(nodes) && before <= nodes
    ensures forall t :: t in ts && t.prop !in collapsed ==> t.subj in nodes && (DrawsObject(t) ==> t.obj in nodes)
  {
    if ts == [] then before else
      var t := ts[|ts| - 1];
      var nodes := NodesOfEdges(before, ts[..|ts| - 1], collapsed);
      assert ts == ts[..|ts| - 1] + [t];
      if t.prop in collapsed then nodes
      else if DrawsObject(t) then Intern(Intern(nodes, t.subj), t.obj)
      else Intern(nodes, t.subj)
  }

  // Owners: a Python dict from short property names to subjects, in order of insertion.

  function Lookup<T>(owners: seq<Owner<T>>, prop: string): (r: seq<Owner<T>>)
    ensures |r| <= 1
    ensures forall o :: o in r ==> o in owners && o.prop == prop
    ensures r == [] <==> forall o :: o in owners ==> o.prop != prop
  {
    if owners == [] then [] else if owners[0].prop == prop then [owners[0]] else Lookup(owners[1..], prop)
  }

  function Assign<T>(owners: seq<Owner<T>>, prop: string, subj: T): (r: seq<Owner<T>>)
    ensures Owner(prop, subj) in r
    ensures forall o :: o in r ==> o in owners || o == Owner(prop, subj)
    ensures forall o :: o in owners && o.prop != prop ==> o in r
  {
    if owners == [] then [Owner(prop, subj)]
    else if owners[0].prop == prop then [Owner(prop, subj)] + owners[1..]
    else [owners[0]] + Assign(owners[1..], prop, subj)
  }

  function OwnersOf(ts: seq<Triple>, collapsed: seq<string>, x: Term): seq<Owner<Term>>
  {
    if ts == [] then [] else
      var t := ts[|ts| - 1];
      var before := OwnersOf(ts[..|ts| - 1], collapsed, x);
      if t.prop in collapsed && t.obj == x then Assign(before, ShortPropName(t.prop), t.subj) else before
  }

  // The objects listed in the table of a subject, and the subjects which have a table.

  function Listed(ts: seq<Triple>, collapsed: seq<string>, prop: string, subj: Term): seq<Term>
  {
    if ts == [] then [] else
      var t := ts[|ts| - 1];
      var before := Listed(ts[..|ts| - 1], collapsed, prop, subj);
      if t.prop in collapsed && ShortPropName(t.prop) == prop && t.subj == subj then before + [t.obj] else before
  }

  function SubjectsOf(ts: seq<Triple>, collapsed: seq<string>, prop: string): seq<Term>
  {
    if ts == [] then [] else
      var t := ts[|ts| - 1];
      var before := SubjectsOf(ts[..|ts| - 1], collapsed, prop);
      if t.prop in collapsed && ShortPropName(t.prop) == prop then Intern(before, t.subj) else before
  }

  // Fields: the values shown inside the node or the row of their subject.

  predicate IsField(t: Triple, collapsed: seq<string>)
  {
    t.prop !in collapsed && (t.obj.Link? ==> t.prop in FLAT_PROPERTIES && t.prop != SOCKET_END)
  }

  function FieldValue(obj: Term): Term { if obj.Nothing? then Literal("Null") else obj }

  function FieldsOf(ts: seq<Triple>, collapsed: seq<string>, x: Term): seq<Field>
  {
    if ts == [] then [] else
      var t := ts[|ts| - 1];
      var before := FieldsOf(ts[..|ts| - 1], collapsed, x);
      if IsField(t, collapsed) && t.subj == x then before + [Field(t.prop, FieldValue(t.obj))] else before
  }

  // The two inputs, and the titles which lib_naming gives to the objects of a table. The program sorts the triples;
  // what is proved holds for any order, unless Sorted is required.
  datatype Graph = Graph(triples: seq<Triple>, collapsed: seq<string>, titles: Term -> string) {

    // The graph has these triples, in some order.
    ghost predicate IsMadeOf(ts: seq<Triple>)
    {
      NoDup(triples) && forall t :: t in triples <==> t in ts
    }

    function Nodes(): (nodes: seq<Term>)
      ensures NoDup(nodes)
    {
      NodesOfEdges(NodesOfTables(triples, collapsed), triples, collapsed)
    }

    function Label(x: Term): string { LabelIn(Nodes(), x) }

    function Owners(x: Term): seq<Owner<Term>> { OwnersOf(triples, collapsed, x) }

    function Rows(prop: string, subj: Term): seq<Term> { Listed(triples, collapsed, prop, subj) }

    function Subjects(prop: string): seq<Term> { SubjectsOf(triples, collapsed, prop) }

    function Fields(x: Term): seq<Field> { FieldsOf(triples, collapsed, x) }

    function TableOf(prop: string, subj: Term): string { TableName(prop, Label(subj)) }

    // Among several tables, the one of the property if it is known, else the first one.
    function Pick(owners: seq<Owner<Term>>, prop: seq<string>): (o: Owner<Term>)
      requires owners != []
      ensures o in owners
    {
      if prop != [] && Lookup(owners, prop[0]) != [] then Lookup(owners, prop[0])[0] else owners[0]
    }

    // How an edge designates x: its own node, or a port of a table. prop holds at most one short name.
    function Endpoint(x: Term, prop: seq<string>): string
    {
      if Owners(x) == [] then Label(x)
      else var o := Pick(Owners(x), prop); PortName(TableOf(o.prop, o.subj), Label(x))
    }

    predicate Mutual(t: Triple) { Triple(t.obj, t.prop, t.subj) in triples }

    function EdgeOf(t: Triple): seq<Stmt>
    {
      if t.prop in collapsed || !t.obj.Link? then []
      else
        var src, dst := Endpoint(t.subj, []), Endpoint(t.obj, [ShortPropName(t.prop)]);
        if t.prop == SOCKET_END then
          if !Mutual(t) then [Edge(src, dst, false, t.prop)]
          else if Less(src, dst) then [Edge(src, dst, true, t.prop)] else []
        else if t.prop in FLAT_PROPERTIES then []
        else [Edge(src, dst, false, t.prop)]
    }

    function EdgesOf(ts: seq<Triple>): seq<Stmt>
    {
      if ts == [] then [] else EdgesOf(ts[..|ts| - 1]) + EdgeOf(ts[|ts| - 1])
    }
  }
}
