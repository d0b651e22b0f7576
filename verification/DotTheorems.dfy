/** The DOT stream as a whole: which term each name stands for, and how many edges draw each triple. */
module DotTheorems {
  import opened Text
  import opened Collections
  import opened Properties
  import opened DotNames
  import opened DotModel
  import opened DotTables
  import opened DotStream

  // ---- labels ----

  lemma LabelInInjective(nodes: seq<Term>, x: Term, y: Term)
    requires x in nodes && y in nodes && LabelIn(nodes, x) == LabelIn(nodes, y)
    ensures x == y
  {
    NodeLabelInjective(Position(nodes, x), Position(nodes, y));
  }

  lemma LabelInjective(g: Graph, x: Term, y: Term)
    requires x in g.Nodes() && y in g.Nodes()
    requires g.Label(x) == g.Label(y)
    ensures x == y
  {
    LabelInInjective(g.Nodes(), x, y);
  }

  // ---- which tables and owners exist ----

  ghost predicate Collapses(ts: seq<Triple>, collapsed: seq<string>, p: string, s: Term, x: Term)
  {
    exists t :: t in ts && t.prop in collapsed && ShortPropName(t.prop) == p && t.subj == s && t.obj == x
  }

  lemma {:induction false} ListedIs(ts: seq<Triple>, collapsed: seq<string>, p: string, s: Term)
    ensures forall x :: x in Listed(ts, collapsed, p, s) <==> Collapses(ts, collapsed, p, s, x)
    ensures s in SubjectsOf(ts, collapsed, p) <==> Listed(ts, collapsed, p, s) != []
  {
    if ts != [] {
      LastOrBefore(ts);
      ListedIs(ts[..|ts| - 1], collapsed, p, s);
    }
  }

  lemma {:induction false} OwnersAre(ts: seq<Triple>, collapsed: seq<string>, x: Term)
    ensures forall o :: o in OwnersOf(ts, collapsed, x) ==> Collapses(ts, collapsed, o.prop, o.subj, x)
    ensures forall p, s :: Collapses(ts, collapsed, p, s, x) ==> Lookup(OwnersOf(ts, collapsed, x), p) != []
  {
    if ts != [] {
      var t, before := ts[|ts| - 1], ts[..|ts| - 1];
      LastOrBefore(ts);
      OwnersAre(before, collapsed, x);
      forall o | o in OwnersOf(ts, collapsed, x) ensures Collapses(ts, collapsed, o.prop, o.subj, x) {
        if o in OwnersOf(before, collapsed, x) {
          assert Collapses(before, collapsed, o.prop, o.subj, x);
        } else {
          assert t in ts && o == Owner(ShortPropName(t.prop), t.subj);
        }
      }
      forall p, s | Collapses(ts, collapsed, p, s, x) ensures Lookup(OwnersOf(ts, collapsed, x), p) != [] {
        OwnerSurvives(before, t, collapsed, x, p, s);
      }
    }
  }

  lemma OwnerSurvives(before: seq<Triple>, t: Triple, collapsed: seq<string>, x: Term, p: string, s: Term)
    requires Collapses(before + [t], collapsed, p, s, x)
    requires forall q, r :: Collapses(before, collapsed, q, r, x) ==> Lookup(OwnersOf(before, collapsed, x), q) != []
    ensures Lookup(OwnersOf(before + [t], collapsed, x), p) != []
  {
    var ts := before + [t];
    assert ts[..|ts| - 1] == before && ts[|ts| - 1] == t;
    var u :| u in ts && u.prop in collapsed && ShortPropName(u.prop) == p && u.subj == s && u.obj == x;
    var owners := OwnersOf(before, collapsed, x);
    if u in before {
      assert Collapses(before, collapsed, p, s, x);
      var o := Lookup(owners, p)[0];
      assert o in owners && o.prop == p;
      if t.prop in collapsed && t.obj == x {
        var after := Assign(owners, ShortPropName(t.prop), t.subj);
        if ShortPropName(t.prop) != p {
          assert o in after;
        }
      }
    } else {
      assert u == t;
    }
  }

  // ---- nodes ----

  lemma Mentioned(g: Graph, t: Triple)
    requires t in g.triples
    ensures t.subj in g.Nodes()
    ensures t.prop in g.collapsed || DrawsObject(t) ==> t.obj in g.Nodes()
  {
  }

  lemma OwnerIsLabelled(g: Graph, x: Term, o: Owner<Term>)
    requires o in g.Owners(x)
    ensures x in g.Rows(o.prop, o.subj)
    ensures x in g.Nodes() && o.subj in g.Nodes()
  {
    OwnersAre(g.triples, g.collapsed, x);
    ListedIs(g.triples, g.collapsed, o.prop, o.subj);
    var t :| t in g.triples && t.prop in g.collapsed && ShortPropName(t.prop) == o.prop && t.subj == o.subj && t.obj == x;
    Mentioned(g, t);
  }

  // ---- endpoints ----

  // name is the node of x, or a port named after x
  ghost predicate EndsAt(g: Graph, name: string, x: Term)
  {
    name == g.Label(x) || exists table :: name == PortName(table, g.Label(x))
  }

  lemma LabelHasNoColon(g: Graph, x: Term)
    ensures ':' !in g.Label(x)
  {
    if x in g.Nodes() {
      NodeLabelHasNoColon(Position(g.Nodes(), x));
    }
  }

  lemma PortHasColon(table: string, node: string)
    ensures ':' in PortName(table, node)
  {
    assert PortName(table, node)[|table|] == ':';
  }

  lemma EndsAtOnce(g: Graph, name: string, x: Term, y: Term)
    requires x in g.Nodes() && y in g.Nodes()
    requires EndsAt(g, name, x) && EndsAt(g, name, y)
    ensures x == y
  {
    LabelHasNoColon(g, x);
    LabelHasNoColon(g, y);
    if name == g.Label(x) || name == g.Label(y) {
      forall t: string, z: Term ensures name != PortName(t, g.Label(z)) {
        PortHasColon(t, g.Label(z));
      }
      LabelInjective(g, x, y);
    } else {
      var t :| name == PortName(t, g.Label(x));
      var u :| name == PortName(u, g.Label(y));
      PortNameInjective(t, Position(g.Nodes(), x), u, Position(g.Nodes(), y));
      LabelInjective(g, x, y);
    }
  }

  lemma EndpointEndsAt(g: Graph, x: Term, prop: seq<string>)
    ensures EndsAt(g, g.Endpoint(x, prop), x)
  {
  }

  // ---- no edge lost, none drawn twice ----

  // The edge e draws the triple t, whatever tables its ends are in.
  ghost predicate Shows(g: Graph, e: Stmt, t: Triple)
  {
    && e.Edge? && e.prop == t.prop
    && (|| (EndsAt(g, e.src, t.subj) && EndsAt(g, e.dst, t.obj))
        || (e.both && EndsAt(g, e.src, t.obj) && EndsAt(g, e.dst, t.subj)))
  }

  ghost function CountShowing(g: Graph, es: seq<Stmt>, t: Triple): nat
  {
    if es == [] then 0 else CountShowing(g, es[..|es| - 1], t) + if Shows(g, es[|es| - 1], t) then 1 else 0
  }

  lemma {:induction false} CountShowingConcat(g: Graph, a: seq<Stmt>, b: seq<Stmt>, t: Triple)
    ensures CountShowing(g, a + b, t) == CountShowing(g, a, t) + CountShowing(g, b, t)
  {
    if b == [] {
      assert a + b == a;
    } else {
      assert (a + b)[..|a + b| - 1] == a + b[..|b| - 1];
      CountShowingConcat(g, a, b[..|b| - 1], t);
    }
  }

  function Reverse(t: Triple): Triple { Triple(t.obj, t.prop, t.subj) }

  // An end has one name, whether socket_end is known or not.
  ghost predicate HasOneName(g: Graph, x: Term)
  {
    g.Endpoint(x, [ShortPropName(SOCKET_END)]) == g.Endpoint(x, [])
  }

  // No collapsed property is confused with socket_end in the table of a node.
  predicate SocketNameIsFree(g: Graph)
  {
    forall p :: p in g.collapsed ==> ShortPropName(p) != ShortPropName(SOCKET_END)
  }

  lemma SocketEndpoint(g: Graph, x: Term)
    requires SocketNameIsFree(g)
    ensures HasOneName(g, x)
  {
    var short := ShortPropName(SOCKET_END);
    OwnersAre(g.triples, g.collapsed, x);
    forall o | o in g.Owners(x) ensures o.prop != short {
      var t :| t in g.triples && t.prop in g.collapsed && ShortPropName(t.prop) == o.prop && t.subj == o.subj && t.obj == x;
    }
  }

  predicate IsDrawn(g: Graph, t: Triple) { t.prop !in g.collapsed && DrawsObject(t) }

  // A graph is a set of triples, and the sockets have an address.
  ghost predicate IsRdf(g: Graph) { NoDup(g.triples) && forall t :: t in g.triples && t.prop == SOCKET_END ==> t.subj.Link? }

  predicate SelfSocket(t: Triple) { t.prop == SOCKET_END && t.subj == t.obj }

  lemma SocketEndIsNotFlat()
    ensures SOCKET_END !in FLAT_PROPERTIES
  {
    assert forall i :: 0 <= i < 3 ==> FLAT_PROPERTIES[i][|PRIMNS|] == 'D';
    assert SOCKET_END[|PRIMNS|] == 's';
  }

  lemma EdgeEnds(g: Graph, u: Triple)
    requires u in g.triples && g.EdgeOf(u) != []
    ensures IsDrawn(g, u) && u.subj in g.Nodes() && u.obj in g.Nodes()
    ensures
      var e := g.EdgeOf(u)[0];
      && g.EdgeOf(u) == [e] && e.Edge? && e.prop == u.prop
      && EndsAt(g, e.src, u.subj) && EndsAt(g, e.dst, u.obj)
      && (e.both <==> u.prop == SOCKET_END && g.Mutual(u))
  {
    SocketEndIsNotFlat();
    Mentioned(g, u);
    EndpointEndsAt(g, u.subj, []);
    EndpointEndsAt(g, u.obj, [ShortPropName(u.prop)]);
  }

  lemma ShownIs(g: Graph, u: Triple, t: Triple)
    requires u in g.triples && g.EdgeOf(u) != []
    requires t.subj in g.Nodes() && t.obj in g.Nodes()
    ensures Shows(g, g.EdgeOf(u)[0], t) <==> u == t || (u == Reverse(t) && t.prop == SOCKET_END && g.Mutual(u))
  {
    var e := g.EdgeOf(u)[0];
    EdgeEnds(g, u);
    if EndsAt(g, e.src, t.subj) { EndsAtOnce(g, e.src, t.subj, u.subj); }
    if EndsAt(g, e.dst, t.obj) { EndsAtOnce(g, e.dst, t.obj, u.obj); }
    if EndsAt(g, e.src, t.obj) { EndsAtOnce(g, e.src, t.obj, u.subj); }
    if EndsAt(g, e.dst, t.subj) { EndsAtOnce(g, e.dst, t.subj, u.obj); }
  }

  // What the edge of one triple u contributes to the drawing of t.
  lemma EdgeContribution(g: Graph, u: Triple, t: Triple)
    requires u in g.triples && t in g.triples && IsDrawn(g, t)
    ensures
      CountShowing(g, g.EdgeOf(u), t) ==
        if u == t || (u == Reverse(t) && t.prop == SOCKET_END) then |g.EdgeOf(u)| else 0
  {
    if g.EdgeOf(u) != [] {
      Mentioned(g, t);
      EdgeEnds(g, u);
      ShownIs(g, u, t);
      assert g.EdgeOf(u)[..0] == [];
    }
  }

  lemma {:induction false} EdgesCount(g: Graph, ts: seq<Triple>, t: Triple)
    requires NoDup(ts) && forall u :: u in ts ==> u in g.triples
    requires t in g.triples && IsDrawn(g, t)
    ensures
      CountShowing(g, g.EdgesOf(ts), t) ==
        (if t in ts then |g.EdgeOf(t)| else 0)
        + (if t.prop == SOCKET_END && t != Reverse(t) && Reverse(t) in ts then |g.EdgeOf(Reverse(t))| else 0)
  {
    if ts != [] {
      var u, before := ts[|ts| - 1], ts[..|ts| - 1];
      LastOrBefore(ts);
      assert u !in before;
      EdgesCount(g, before, t);
      CountShowingConcat(g, g.EdgesOf(before), g.EdgeOf(u), t);
      EdgeContribution(g, u, t);
    }
  }

  // A direction of a mutual pair is written when its names are in order.
  ghost predicate IsInOrder(g: Graph, t: Triple)
  {
    Less(g.Endpoint(t.subj, []), g.Endpoint(t.obj, [ShortPropName(SOCKET_END)]))
  }

  // Of a mutual pair of sockets whose ends have one name each, one direction is written.
  lemma MutualOnce(g: Graph, t: Triple)
    requires IsRdf(g) && HasOneName(g, t.subj) && HasOneName(g, t.obj)
    requires t in g.triples && IsDrawn(g, t) && t.prop == SOCKET_END && g.Mutual(t)
    ensures |g.EdgeOf(t)| + |g.EdgeOf(Reverse(t))| == if SelfSocket(t) then 0 else 1
  {
    var src, dst := g.Endpoint(t.subj, []), g.Endpoint(t.obj, []);
    LessTrichotomy(src, dst);
    if src == dst {
      Mentioned(g, t);
      EndpointEndsAt(g, t.subj, []);
      EndpointEndsAt(g, t.obj, []);
      EndsAtOnce(g, src, t.subj, t.obj);
    }
  }

  lemma OthersShowNothing(g: Graph, ss: seq<Stmt>, t: Triple)
    requires forall s :: s in ss ==> !s.Edge?
    ensures CountShowing(g, ss, t) == 0
  {
    NothingShows(g, ss, t);
  }

  // What draws a triple in the whole stream are the edges of the triples.
  lemma StreamShows(g: Graph, out: seq<Stmt>, t: Triple)
    requires IsDot(g, out)
    ensures CountShowing(g, out, t) == CountShowing(g, g.EdgesOf(g.triples), t)
  {
    var keys, edges, nodes := TableKeys(g, g.collapsed), g.EdgesOf(g.triples), NodesDeclared(g, g.Nodes());
    var blocks: seq<Stmt> :| IsBlocks(g, keys, blocks) && out == edges + blocks + nodes;
    forall s | s in blocks ensures !s.Edge? {
      BlocksCover(g, keys, blocks, s);
    }
    NodesDeclaredAre(g, g.Nodes());
    OthersShowNothing(g, blocks, t);
    OthersShowNothing(g, nodes, t);
    CountShowingConcat(g, edges, blocks, t);
    CountShowingConcat(g, edges + blocks, nodes, t);
  }

  // In the stream, every drawn triple is drawn by exactly one edge, except a socket linked to itself, which is lost.
  lemma EdgeDrawnOnce(g: Graph, out: seq<Stmt>, t: Triple)
    requires IsDot(g, out) && IsRdf(g) && t in g.triples && IsDrawn(g, t)
    requires t.prop == SOCKET_END && g.Mutual(t) ==> HasOneName(g, t.subj) && HasOneName(g, t.obj)
    ensures CountShowing(g, out, t) == if SelfSocket(t) then 0 else 1
  {
    StreamShows(g, out, t);
    EdgesCount(g, g.triples, t);
    if t.prop == SOCKET_END && g.Mutual(t) {
      MutualOnce(g, t);
    }
  }

  // Without this condition a mutual pair may be drawn twice, or not at all: by each direction which is in order.
  lemma MutualCount(g: Graph, out: seq<Stmt>, t: Triple)
    requires IsDot(g, out) && IsRdf(g) && t in g.triples && IsDrawn(g, t) && t.prop == SOCKET_END && g.Mutual(t)
    ensures CountShowing(g, out, t) ==
      (if IsInOrder(g, t) then 1 else 0) + (if !SelfSocket(t) && IsInOrder(g, Reverse(t)) then 1 else 0)
  {
    StreamShows(g, out, t);
    EdgesCount(g, g.triples, t);
  }

  // ---- two collapsed properties, one of which is called socket_end ----

  predicate IsShort(w: string) { w == "" || (w[0] != '/' && w[0] != '.' && w[0] != ' ' && IsShort(w[1..])) }

  lemma {:induction false} ShortIs(w: string)
    requires IsShort(w)
    ensures '/' !in w && '.' !in w && ' ' !in w
  {
    if w != "" {
      assert w == [w[0]] + w[1..];
      ShortIs(w[1..]);
    }
  }

  // The short name of a property is what comes after the last slash.
  lemma ShortOf(start: string, w: string)
    requires IsShort(w) && (w != "" ==> w[0] != '-')
    ensures ShortPropName(start + ['/'] + w) == w
  {
    ShortIs(w);
    LastOfSplit(start, '/', w);
    assert ReplaceChar(ReplaceChar(w, '.', '_'), ' ', '_') == w;
  }

  lemma SocketEndShort()
    ensures ShortPropName(SOCKET_END) == "socket_end"
  {
    var start, w := "http://primhillcomputers.com/ontologies", "socket_end";
    assert PRIMNS == start + ['/'];
    SocketIsShort();
    ShortOf(start, w);
  }

  lemma SocketIsShort()
    ensures IsShort("socket_end")
  {
  }

  // Both ends are first in a table of prop, and also in one of a property called socket_end.
  ghost predicate IsInTwoTables(g: Graph, x: Term, prop: string, socket: string)
  {
    g.Owners(x) != [] && g.Owners(x)[0].prop == prop && Lookup(g.Owners(x), socket) != []
  }

  // The names of tables are compared by their properties before anything else.
  predicate AreApart(p: string, q: string) { !(p + "_" <= q + "_") && !(q + "_" <= p + "_") }

  predicate ComesFirst(p: string, q: string) { Less(p + "_", q + "_") }

  lemma NamesInTables(g: Graph, x: Term, y: Term, prop: string, socket: string)
    requires IsInTwoTables(g, x, prop, socket) && IsInTwoTables(g, y, prop, socket) && AreApart(prop, socket)
    ensures Less(g.Endpoint(x, []), g.Endpoint(y, [socket])) <==> ComesFirst(prop, socket)
  {
    var o, q := g.Owners(x)[0], Lookup(g.Owners(y), socket)[0];
    PortsInOrder(prop, g.Label(o.subj), g.Label(x), socket, g.Label(q.subj), g.Label(y));
  }

  // The order of two ports is first the one of their properties.
  lemma PortsInOrder(p: string, i: string, j: string, q: string, k: string, l: string)
    requires AreApart(p, q)
    ensures Less(PortName(TableName(p, i), j), PortName(TableName(q, k), l)) <==> ComesFirst(p, q)
  {
    PortText(p, i, j);
    PortText(q, k, l);
    LessAfter("R_", p + "_" + (i + ":" + j), q + "_" + (k + ":" + l));
    LessBefore(p + "_", i + ":" + j, q + "_", k + ":" + l);
  }

  lemma PortText(p: string, i: string, j: string)
    ensures PortName(TableName(p, i), j) == "R_" + (p + "_" + (i + ":" + j))
  {
    Associative("R_", p, "_");
    Associative("R_", p + "_", i + ":" + j);
    Associative("R_" + p + "_", i, ":" + j);
    Associative(i, ":", j);
    Associative("R_" + p + "_" + i, ":", j);
  }

  // So a mutual pair is drawn twice when prop comes before socket_end, and not at all when it comes after.
  lemma MutualPairInTwoTables(g: Graph, out: seq<Stmt>, t: Triple, prop: string, socket: string)
    requires IsDot(g, out) && IsRdf(g) && t in g.triples && IsDrawn(g, t)
    requires t.prop == SOCKET_END && g.Mutual(t) && !SelfSocket(t) && socket == ShortPropName(SOCKET_END)
    requires IsInTwoTables(g, t.subj, prop, socket) && IsInTwoTables(g, t.obj, prop, socket) && AreApart(prop, socket)
    ensures CountShowing(g, out, t) == if ComesFirst(prop, socket) then 2 else 0
  {
    MutualCount(g, out, t);
    NamesInTables(g, t.subj, t.obj, prop, socket);
    NamesInTables(g, t.obj, t.subj, prop, socket);
  }

  lemma {:induction false} FirstOwner(ts: seq<Triple>, collapsed: seq<string>, x: Term, i: nat)
    requires i < |ts| && ts[i].prop in collapsed && ts[i].obj == x
    requires forall k :: 0 <= k < i ==> !(ts[k].prop in collapsed && ts[k].obj == x)
    ensures OwnersOf(ts, collapsed, x) != [] && OwnersOf(ts, collapsed, x)[0].prop == ShortPropName(ts[i].prop)
  {
    var before := ts[..|ts| - 1];
    if i < |ts| - 1 {
      FirstOwner(before, collapsed, x, i);
    } else {
      NoOwner(before, collapsed, x);
    }
  }

  lemma {:induction false} NoOwner(ts: seq<Triple>, collapsed: seq<string>, x: Term)
    requires forall k :: 0 <= k < |ts| ==> !(ts[k].prop in collapsed && ts[k].obj == x)
    ensures OwnersOf(ts, collapsed, x) == []
  {
    if ts != [] {
      NoOwner(ts[..|ts| - 1], collapsed, x);
    }
  }

  // Two sockets which are linked both ways, and are both listed by r under p and under q.
  function TwoSockets(r: Term, x: Term, y: Term, p: string, q: string): seq<Triple>
  {
    [Triple(r, p, x), Triple(r, p, y), Triple(r, q, x), Triple(r, q, y), Triple(x, SOCKET_END, y), Triple(y, SOCKET_END, x)]
  }

  // In the order of the program, when the short name of q is the one of socket_end: if q is sorted after p, the pair is
  // drawn twice or lost, by the short name of p; if it is before, the pair is drawn once.
  lemma TwoSocketsAreDrawn(g: Graph, out: seq<Stmt>, r: Term, x: Term, y: Term, p: string, q: string)
    requires IsDot(g, out) && Sorted(g.triples) && g.IsMadeOf(TwoSockets(r, x, y, p, q))
    requires (forall c :: c in g.collapsed <==> c == p || c == q) && p != SOCKET_END && q != SOCKET_END
    requires x.Link? && y.Link? && x != y
    requires ShortPropName(q) == ShortPropName(SOCKET_END) && AreApart(ShortPropName(p), ShortPropName(q))
    ensures CountShowing(g, out, Triple(x, SOCKET_END, y)) ==
      if Less(q, p) then 1 else if ComesFirst(ShortPropName(p), ShortPropName(q)) then 2 else 0
  {
    if Less(q, p) {
      SortedPairDrawnOnce(g, out, r, x, y, p, q);
    } else {
      LessTrichotomy(p, q);
      PairDrawnTwiceOrLost(g, out, r, x, y, p, q);
    }
  }

  lemma SortedPairDrawnOnce(g: Graph, out: seq<Stmt>, r: Term, x: Term, y: Term, p: string, q: string)
    requires IsDot(g, out) && Sorted(g.triples) && g.IsMadeOf(TwoSockets(r, x, y, p, q))
    requires (forall c :: c in g.collapsed <==> c == p || c == q) && p != SOCKET_END && q != SOCKET_END
    requires x.Link? && y.Link? && x != y && ShortPropName(q) == ShortPropName(SOCKET_END) && Less(q, p)
    ensures CountShowing(g, out, Triple(x, SOCKET_END, y)) == 1
  {
    SocketPair(g, r, x, y, p, q);
    SocketIsFirst(g, r, x, y, x, p, q);
    SocketIsFirst(g, r, x, y, y, p, q);
    EdgeDrawnOnce(g, out, Triple(x, SOCKET_END, y));
  }

  lemma PairDrawnTwiceOrLost(g: Graph, out: seq<Stmt>, r: Term, x: Term, y: Term, p: string, q: string)
    requires IsDot(g, out) && Sorted(g.triples) && g.IsMadeOf(TwoSockets(r, x, y, p, q))
    requires (forall c :: c in g.collapsed <==> c == p || c == q) && p != SOCKET_END && q != SOCKET_END
    requires x.Link? && y.Link? && x != y && Less(p, q)
    requires ShortPropName(q) == ShortPropName(SOCKET_END) && AreApart(ShortPropName(p), ShortPropName(q))
    ensures CountShowing(g, out, Triple(x, SOCKET_END, y)) == if ComesFirst(ShortPropName(p), ShortPropName(q)) then 2 else 0
  {
    SocketPair(g, r, x, y, p, q);
    SocketIsSecond(g, r, x, y, x, p, q);
    SocketIsSecond(g, r, x, y, y, p, q);
    MutualPairInTwoTables(g, out, Triple(x, SOCKET_END, y), ShortPropName(p), ShortPropName(q));
  }

  lemma SocketPair(g: Graph, r: Term, x: Term, y: Term, p: string, q: string)
    requires g.IsMadeOf(TwoSockets(r, x, y, p, q))
    requires (forall c :: c in g.collapsed <==> c == p || c == q) && p != SOCKET_END && q != SOCKET_END
    requires x.Link? && y.Link? && x != y
    ensures
      var t := Triple(x, SOCKET_END, y);
      IsRdf(g) && t in g.triples && g.Mutual(t) && IsDrawn(g, t) && !SelfSocket(t)
  {
    var t, ts := Triple(x, SOCKET_END, y), TwoSockets(r, x, y, p, q);
    assert ts[4] == t && ts[5] == Reverse(t);
    assert t in ts && Reverse(t) in ts;
    SocketIsDrawn(g, t);
  }

  lemma SocketIsFirst(g: Graph, r: Term, x: Term, y: Term, z: Term, p: string, q: string)
    requires Sorted(g.triples) && g.IsMadeOf(TwoSockets(r, x, y, p, q))
    requires (forall c :: c in g.collapsed <==> c == p || c == q) && p != SOCKET_END && q != SOCKET_END
    requires (z == x || z == y) && Less(q, p) && ShortPropName(q) == ShortPropName(SOCKET_END)
    ensures HasOneName(g, z)
  {
    FirstIsSorted(g, r, x, y, z, q, p);
  }

  lemma SocketIsSecond(g: Graph, r: Term, x: Term, y: Term, z: Term, p: string, q: string)
    requires Sorted(g.triples) && g.IsMadeOf(TwoSockets(r, x, y, p, q))
    requires (forall c :: c in g.collapsed <==> c == p || c == q) && p != SOCKET_END && q != SOCKET_END
    requires (z == x || z == y) && Less(p, q)
    ensures IsInTwoTables(g, z, ShortPropName(p), ShortPropName(q))
  {
    FirstIsSorted(g, r, x, y, z, p, q);
    IsListed(r, x, y, p, q);
    IsInTable(g, Triple(r, q, z));
  }

  // The first owner of a socket z is for the property which is sorted first.
  lemma FirstIsSorted(g: Graph, r: Term, x: Term, y: Term, z: Term, p: string, q: string)
    requires Sorted(g.triples) && (g.IsMadeOf(TwoSockets(r, x, y, p, q)) || g.IsMadeOf(TwoSockets(r, x, y, q, p)))
    requires (forall c :: c in g.collapsed <==> c == p || c == q) && p != SOCKET_END && q != SOCKET_END
    requires (z == x || z == y) && Less(p, q)
    ensures g.Owners(z) != [] && g.Owners(z)[0].prop == ShortPropName(p)
  {
    var ts := g.triples;
    IsListed(r, x, y, p, q);
    IsListed(r, x, y, q, p);
    var first := Triple(r, p, z);
    var i :| 0 <= i < |ts| && ts[i] == first;
    forall k | 0 <= k < i ensures !(ts[k].prop in g.collapsed && ts[k].obj == z) {
      assert ts[k] in ts && ts[k] != first && !Precedes(first, ts[k]);
    }
    FirstOwner(ts, g.collapsed, z, i);
  }

  lemma IsListed(r: Term, x: Term, y: Term, p: string, q: string)
    requires p != SOCKET_END && q != SOCKET_END
    ensures forall z :: z == x || z == y ==> Triple(r, p, z) in TwoSockets(r, x, y, p, q) && Triple(r, q, z) in TwoSockets(r, x, y, p, q)
    ensures forall t :: t in TwoSockets(r, x, y, p, q) && (t.prop == p || t.prop == q) ==> t.subj == r
  {
    var ts := TwoSockets(r, x, y, p, q);
    assert ts[0] in ts && ts[1] in ts && ts[2] in ts && ts[3] in ts;
  }

  lemma SocketIsDrawn(g: Graph, t: Triple)
    requires t.prop == SOCKET_END && t.obj.Link? && SOCKET_END !in g.collapsed
    ensures IsDrawn(g, t)
  {
    SocketEndIsNotFlat();
  }

  lemma IsInTable(g: Graph, t: Triple)
    requires t in g.triples && t.prop in g.collapsed
    ensures Lookup(g.Owners(t.obj), ShortPropName(t.prop)) != []
  {
    OwnersAre(g.triples, g.collapsed, t.obj);
    assert Collapses(g.triples, g.collapsed, ShortPropName(t.prop), t.subj, t.obj);
  }

  // For example with the directories and the sockets of another ontology: the pair is drawn twice.
  lemma SocketPairDrawnTwice(g: Graph, out: seq<Stmt>)
    requires IsDot(g, out) && g.collapsed == [PRIMNS + "directory", "http://zoo/socket_end"]
    requires g.triples == TwoSockets(Link("r"), Link("x"), Link("y"), PRIMNS + "directory", "http://zoo/socket_end")
    ensures Sorted(g.triples)
    ensures CountShowing(g, out, Triple(Link("x"), SOCKET_END, Link("y"))) == 2
  {
    DirectoryShort();
    OtherSocketShort();
    SocketEndShort();
    DirectoryIsFirst();
    DirectoryIsApart();
    SortedPairDrawnTwice(g, out, Link("r"), Link("x"), Link("y"), PRIMNS + "directory", "http://zoo/socket_end");
  }

  lemma SortedPairDrawnTwice(g: Graph, out: seq<Stmt>, r: Term, x: Term, y: Term, p: string, q: string)
    requires IsDot(g, out) && g.collapsed == [p, q] && g.triples == TwoSockets(r, x, y, p, q)
    requires TermPrecedes(r, x) && TermPrecedes(x, y) && Less(p, q) && p != SOCKET_END && q != SOCKET_END
    requires ShortPropName(q) == ShortPropName(SOCKET_END)
    requires AreApart(ShortPropName(p), ShortPropName(q)) && ComesFirst(ShortPropName(p), ShortPropName(q))
    ensures Sorted(g.triples) && CountShowing(g, out, Triple(x, SOCKET_END, y)) == 2
  {
    LessTrichotomy(p, q);
    LessTrichotomy(x.uri, y.uri);
    TwoSocketsAreSorted(r, x, y, p, q);
    TwoSocketsAreDrawn(g, out, r, x, y, p, q);
  }

  lemma TwoSocketsAreSorted(r: Term, x: Term, y: Term, p: string, q: string)
    requires TermPrecedes(r, x) && TermPrecedes(x, y) && Less(p, q) && p != SOCKET_END && q != SOCKET_END
    ensures NoDup(TwoSockets(r, x, y, p, q)) && Sorted(TwoSockets(r, x, y, p, q))
  {
    var ts := TwoSockets(r, x, y, p, q);
    LessTransitive(r.uri, x.uri, y.uri);
    LessTrichotomy(r.uri, x.uri);
    LessTrichotomy(x.uri, y.uri);
    LessTrichotomy(r.uri, y.uri);
    LessTrichotomy(p, q);
    forall i, j | 0 <= i < j < 6 ensures Precedes(ts[i], ts[j]) {
      TwoSocketsAt(r, x, y, p, q, i, j);
    }
    forall i, j | 0 <= i < j < 6 ensures !Precedes(ts[j], ts[i]) && ts[i] != ts[j] {
      PrecedesOnce(ts[i], ts[j]);
    }
  }

  lemma TwoSocketsAt(r: Term, x: Term, y: Term, p: string, q: string, i: nat, j: nat)
    requires TermPrecedes(r, x) && TermPrecedes(x, y) && TermPrecedes(r, y) && Less(p, q) && r != x && r != y && x != y && p != q
    requires i < j < 6
    ensures Precedes(TwoSockets(r, x, y, p, q)[i], TwoSockets(r, x, y, p, q)[j])
  {
    var ts := TwoSockets(r, x, y, p, q);
    if j < 4 {
      assert ts[..4] == [Triple(r, p, x), Triple(r, p, y), Triple(r, q, x), Triple(r, q, y)];
      ListedAt(r, x, y, p, q, i, j);
    } else if i < 4 {
      assert ts[i].subj == r && (ts[j].subj == x || ts[j].subj == y);
    } else {
      assert ts[i].subj == x && ts[j].subj == y;
    }
  }

  lemma ListedAt(r: Term, x: Term, y: Term, p: string, q: string, i: nat, j: nat)
    requires TermPrecedes(x, y) && Less(p, q) && x != y && p != q && i < j < 4
    ensures
      var ts := [Triple(r, p, x), Triple(r, p, y), Triple(r, q, x), Triple(r, q, y)];
      Precedes(ts[i], ts[j])
  {
  }

  lemma PrecedesOnce(t: Triple, u: Triple)
    requires Precedes(t, u)
    ensures !Precedes(u, t) && t != u
  {
    if t.subj != u.subj {
      LessTrichotomy(t.subj.uri, u.subj.uri);
    } else if t.prop != u.prop {
      LessTrichotomy(t.prop, u.prop);
    } else {
      LessTrichotomy(t.obj.uri, u.obj.uri);
    }
  }

  lemma DirectoryShort()
    ensures ShortPropName(PRIMNS + "directory") == "directory" && PRIMNS + "directory" != SOCKET_END
  {
    var start, w := "http://primhillcomputers.com/ontologies", "directory";
    assert PRIMNS + w == start + ['/'] + w;
    ShortOf(start, w);
    SocketEndShort();
  }

  lemma OtherSocketShort()
    ensures ShortPropName("http://zoo/socket_end") == "socket_end" && "http://zoo/socket_end" != SOCKET_END
  {
    var start, w := "http://zoo", "socket_end";
    assert "http://zoo/socket_end" == start + ['/'] + w;
    assert |SOCKET_END| == 50;
    SocketIsShort();
    ShortOf(start, w);
  }

  lemma DirectoryIsFirst()
    ensures Less(PRIMNS + "directory", "http://zoo/socket_end")
  {
    PrimhillIsHttp();
    FirstDiffers(PRIMNS + "directory", "http://zoo/socket_end", 7);
  }

  lemma PrimhillIsHttp()
    ensures |PRIMNS| > 7 && PRIMNS[..7] == "http://" && PRIMNS[7] == 'p'
  {
    var s := PRIMNS;
    assert s[0] == 'h' && s[1] == 't' && s[2] == 't' && s[3] == 'p' && s[4] == ':' && s[5] == '/' && s[6] == '/';
  }

  lemma {:induction false} FirstDiffers(a: string, b: string, n: nat)
    requires n < |a| && n < |b| && a[..n] == b[..n] && a[n] < b[n]
    ensures Less(a, b)
  {
    if n > 0 {
      assert a[..n][0] == b[..n][0] && a[1..][..n - 1] == a[..n][1..] == b[..n][1..] == b[1..][..n - 1];
      FirstDiffers(a[1..], b[1..], n - 1);
    }
  }

  lemma DirectoryIsApart()
    ensures AreApart("directory", "socket_end") && ComesFirst("directory", "socket_end")
  {
    assert ("directory" + "_")[0] == 'd' && ("socket_end" + "_")[0] == 's';
  }

  // Conversely an edge of the stream draws only triples of the graph, and both directions when it says so.
  lemma EdgeIsTrue(g: Graph, out: seq<Stmt>, s: Stmt, t: Triple)
    requires IsDot(g, out) && IsRdf(g) && s in out && Shows(g, s, t)
    ensures t in g.triples && IsDrawn(g, t)
  {
    var u := EdgeComesFrom(g, out, s);
    EdgeEnds(g, u);
    EndsAreLabelled(g, u, t);
    ShownIs(g, u, t);
  }

  // A name which ends at a term ends at no other term, even if this one has no label.
  lemma EndIsLabelled(g: Graph, name: string, x: Term, y: Term)
    requires x in g.Nodes() && EndsAt(g, name, x) && EndsAt(g, name, y)
    ensures y in g.Nodes()
  {
    var node := g.Label(x);
    var last := node[|node| - 1];
    LabelHasNoColon(g, x);
    assert last in node;
    assert name[|name| - 1] == last;
  }

  lemma EndsAreLabelled(g: Graph, u: Triple, t: Triple)
    requires u in g.triples && g.EdgeOf(u) != [] && Shows(g, g.EdgeOf(u)[0], t)
    ensures t.subj in g.Nodes() && t.obj in g.Nodes()
  {
    var e := g.EdgeOf(u)[0];
    EdgeEnds(g, u);
    if EndsAt(g, e.src, t.subj) && EndsAt(g, e.dst, t.obj) {
      EndIsLabelled(g, e.src, u.subj, t.subj);
      EndIsLabelled(g, e.dst, u.obj, t.obj);
    } else {
      EndIsLabelled(g, e.src, u.subj, t.obj);
      EndIsLabelled(g, e.dst, u.obj, t.subj);
    }
  }

  // A triple which is not drawn is shown by no edge.
  lemma NotDrawn(g: Graph, out: seq<Stmt>, t: Triple)
    requires IsDot(g, out) && IsRdf(g) && !(t in g.triples && IsDrawn(g, t))
    ensures CountShowing(g, out, t) == 0
  {
    forall s | s in out && Shows(g, s, t) ensures false {
      EdgeIsTrue(g, out, s, t);
    }
    NothingShows(g, out, t);
  }

  lemma {:induction false} NothingShows(g: Graph, ss: seq<Stmt>, t: Triple)
    requires forall s :: s in ss ==> !Shows(g, s, t)
    ensures CountShowing(g, ss, t) == 0
  {
    if ss != [] {
      LastOrBefore(ss);
      NothingShows(g, ss[..|ss| - 1], t);
    }
  }

  // ---- the other triples ----

  // The table of a subject lists each object once when the short names are distinct.
  lemma {:induction false} ListedOnce(ts: seq<Triple>, collapsed: seq<string>, prop: string, s: Term, x: Term)
    requires NoDup(ts) && prop in collapsed
    requires forall p :: p in collapsed && ShortPropName(p) == ShortPropName(prop) ==> p == prop
    ensures multiset(Listed(ts, collapsed, ShortPropName(prop), s))[x] == if Triple(s, prop, x) in ts then 1 else 0
  {
    if ts != [] {
      var t, before := ts[|ts| - 1], ts[..|ts| - 1];
      LastOrBefore(ts);
      assert t !in before;
      ListedOnce(before, collapsed, prop, s, x);
    }
  }

  // A field shows a triple once; None is shown like the text "Null".
  lemma {:induction false} FieldOnce(ts: seq<Triple>, collapsed: seq<string>, s: Term, prop: string, x: Term)
    requires NoDup(ts) && IsField(Triple(s, prop, x), collapsed)
    requires x != Nothing && x != Literal("Null")
    ensures multiset(FieldsOf(ts, collapsed, s))[Field(prop, x)] == if Triple(s, prop, x) in ts then 1 else 0
  {
    if ts != [] {
      var t, before := ts[|ts| - 1], ts[..|ts| - 1];
      LastOrBefore(ts);
      assert t !in before;
      FieldOnce(before, collapsed, s, prop, x);
    }
  }

  lemma {:induction false} FieldIn(ts: seq<Triple>, collapsed: seq<string>, t: Triple)
    requires t in ts && IsField(t, collapsed)
    ensures Field(t.prop, FieldValue(t.obj)) in FieldsOf(ts, collapsed, t.subj)
  {
    if t != ts[|ts| - 1] {
      LastOrBefore(ts);
      FieldIn(ts[..|ts| - 1], collapsed, t);
    }
  }

  lemma {:induction false} FieldComesFrom(ts: seq<Triple>, collapsed: seq<string>, s: Term, f: Field) returns (t: Triple)
    requires f in FieldsOf(ts, collapsed, s)
    ensures t in ts && IsField(t, collapsed) && t.subj == s && f == Field(t.prop, FieldValue(t.obj))
  {
    t := ts[|ts| - 1];
    if !(IsField(t, collapsed) && t.subj == s && f == Field(t.prop, FieldValue(t.obj))) {
      LastOrBefore(ts);
      t := FieldComesFrom(ts[..|ts| - 1], collapsed, s, f);
    }
  }

  // Main result: a triple is listed in a table, drawn by an edge or shown as a field, only one of them, and once.
  lemma ShownOnce(g: Graph, out: seq<Stmt>, t: Triple)
    requires IsDot(g, out) && IsRdf(g) && t in g.triples
    requires t.obj != Nothing && t.obj != Literal("Null") && !SelfSocket(t)
    requires forall p :: p in g.collapsed && ShortPropName(p) == ShortPropName(t.prop) ==> p == t.prop
    requires t.prop == SOCKET_END && g.Mutual(t) ==> HasOneName(g, t.subj) && HasOneName(g, t.obj)
    ensures multiset(g.Rows(ShortPropName(t.prop), t.subj))[t.obj] == if t.prop in g.collapsed then 1 else 0
    ensures CountShowing(g, out, t) == if IsDrawn(g, t) then 1 else 0
    ensures multiset(g.Fields(t.subj))[Field(t.prop, t.obj)] == if t.prop !in g.collapsed && !IsDrawn(g, t) then 1 else 0
  {
    SocketEndIsNotFlat();
    if t.prop in g.collapsed {
      ListedOnce(g.triples, g.collapsed, t.prop, t.subj, t.obj);
    } else {
      NotListed(g, t);
    }
    if IsDrawn(g, t) {
      EdgeDrawnOnce(g, out, t);
    } else {
      NotDrawn(g, out, t);
    }
    if IsField(t, g.collapsed) {
      FieldOnce(g.triples, g.collapsed, t.subj, t.prop, t.obj);
    } else {
      NotAField(g, t);
    }
  }

  lemma NotListed(g: Graph, t: Triple)
    requires t.prop !in g.collapsed && forall p :: p in g.collapsed ==> ShortPropName(p) != ShortPropName(t.prop)
    ensures t.obj !in g.Rows(ShortPropName(t.prop), t.subj)
  {
    ListedIs(g.triples, g.collapsed, ShortPropName(t.prop), t.subj);
  }

  lemma NotAField(g: Graph, t: Triple)
    requires t.prop in g.collapsed || t.obj.Link?
    requires !IsField(t, g.collapsed)
    ensures Field(t.prop, t.obj) !in g.Fields(t.subj)
  {
    if Field(t.prop, t.obj) in g.Fields(t.subj) {
      var u := FieldComesFrom(g.triples, g.collapsed, t.subj, Field(t.prop, t.obj));
    }
  }
}
