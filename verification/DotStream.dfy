/** The DOT stream as it is written: the edges of the triples, the tables with their pointers, then the nodes. */
module DotStream {
  import opened Text
  import opened Collections
  import opened Properties
  import opened DotNames
  import opened DotModel
  import opened DotTables

  // ---- the stream ----

  // Where the edge to the table of subj starts: at its row when subj is itself in a table of
  // this property, else at its node.
  function PointerSource(g: Graph, prop: string, subj: Term): string
  {
    var owner := Lookup(g.Owners(subj), prop);
    if owner != [] then PortName(g.TableOf(prop, owner[0].subj), g.Label(subj)) else g.Label(subj)
  }

  function PointerOf(g: Graph, key: Owner<Term>): Stmt
  {
    Pointer(PointerSource(g, key.prop, key.subj), g.TableOf(key.prop, key.subj), key.prop)
  }

  function NodeOf(g: Graph, x: Term): Stmt { Node(g.Label(x), multiset(g.Fields(x))) }

  // The tables in the order they are written.
  function TableKeys(g: Graph, props: seq<string>): seq<Owner<Term>>
  {
    if props == [] then [] else
      var p := ShortPropName(props[|props| - 1]);
      TableKeys(g, props[..|props| - 1]) + Keyed(p, g.Subjects(p))
  }

  function Keyed(prop: string, subjects: seq<Term>): (r: seq<Owner<Term>>)
    ensures |r| == |subjects|
    ensures forall i :: 0 <= i < |r| ==> r[i] == Owner(prop, subjects[i])
  {
    seq(|subjects|, i requires 0 <= i < |subjects| => Owner(prop, subjects[i]))
  }

  ghost predicate IsPair(g: Graph, key: Owner<Term>, pointer: Stmt, table: Stmt)
  {
    pointer == PointerOf(g, key) && IsTable(g, key.prop, key.subj, table)
  }

  ghost predicate IsBlocks(g: Graph, keys: seq<Owner<Term>>, out: seq<Stmt>)
  {
    |out| == 2 * |keys| && forall i: nat :: i < |keys| ==> IsPairAt(g, keys, out, i)
  }

  ghost predicate IsPairAt(g: Graph, keys: seq<Owner<Term>>, out: seq<Stmt>, i: nat)
    requires |out| == 2 * |keys| && i < |keys|
  {
    IsPair(g, keys[i], out[2 * i], out[2 * i + 1])
  }

  function NodesDeclared(g: Graph, nodes: seq<Term>): seq<Stmt>
  {
    if nodes == [] then [] else
      var x := nodes[|nodes| - 1];
      var before := NodesDeclared(g, nodes[..|nodes| - 1]);
      if g.Owners(x) == [] then before + [NodeOf(g, x)] else before
  }

  ghost predicate IsDot(g: Graph, out: seq<Stmt>)
  {
    exists blocks ::
      && IsBlocks(g, TableKeys(g, g.collapsed), blocks)
      && out == g.EdgesOf(g.triples) + blocks + NodesDeclared(g, g.Nodes())
  }

  // ---- what is in the stream ----

  ghost predicate IsEdge(g: Graph, s: Stmt) { exists u :: u in g.triples && g.EdgeOf(u) == [s] }

  ghost predicate IsBlockOf(g: Graph, key: Owner<Term>, s: Stmt)
  {
    s == PointerOf(g, key) || IsTable(g, key.prop, key.subj, s)
  }

  ghost predicate IsBlock(g: Graph, keys: seq<Owner<Term>>, s: Stmt) { exists key :: key in keys && IsBlockOf(g, key, s) }

  ghost predicate IsNode(g: Graph, nodes: seq<Term>, s: Stmt)
  {
    exists x :: x in nodes && g.Owners(x) == [] && s == NodeOf(g, x)
  }

  ghost predicate HasTable(g: Graph, key: Owner<Term>, out: seq<Stmt>)
  {
    exists s :: s in out && IsTable(g, key.prop, key.subj, s)
  }

  lemma BlocksCover(g: Graph, keys: seq<Owner<Term>>, out: seq<Stmt>, s: Stmt)
    requires IsBlocks(g, keys, out) && s in out
    ensures IsBlock(g, keys, s)
  {
    var j :| 0 <= j < |out| && out[j] == s;
    assert IsPairAt(g, keys, out, j / 2);
    assert j == 2 * (j / 2) || j == 2 * (j / 2) + 1;
    assert IsBlockOf(g, keys[j / 2], s);
    assert keys[j / 2] in keys;
  }

  lemma BlocksHave(g: Graph, keys: seq<Owner<Term>>, out: seq<Stmt>, key: Owner<Term>)
    requires IsBlocks(g, keys, out) && key in keys
    ensures PointerOf(g, key) in out && HasTable(g, key, out)
  {
    var i :| 0 <= i < |keys| && keys[i] == key;
    assert IsPairAt(g, keys, out, i);
    assert out[2 * i] in out && out[2 * i + 1] in out;
  }

  lemma {:induction false} NodesDeclaredAre(g: Graph, nodes: seq<Term>)
    ensures forall x :: x in nodes && g.Owners(x) == [] ==> NodeOf(g, x) in NodesDeclared(g, nodes)
    ensures forall s :: s in NodesDeclared(g, nodes) ==> IsNode(g, nodes, s)
  {
    if nodes != [] {
      var x, before := nodes[|nodes| - 1], nodes[..|nodes| - 1];
      NodesDeclaredAre(g, before);
      assert nodes == before + [x];
      forall s | s in NodesDeclared(g, nodes) ensures IsNode(g, nodes, s) {
        if s in NodesDeclared(g, before) {
          var y :| y in before && g.Owners(y) == [] && s == NodeOf(g, y);
          assert y in nodes;
        }
      }
    }
  }

  lemma {:induction false} EdgesAre(g: Graph, ts: seq<Triple>)
    requires forall t :: t in ts ==> t in g.triples
    ensures forall e :: e in g.EdgesOf(ts) ==> IsEdge(g, e)
  {
    if ts != [] {
      EdgesAre(g, ts[..|ts| - 1]);
      LastOrBefore(ts);
      var u := ts[|ts| - 1];
      assert |g.EdgeOf(u)| <= 1;
      forall e | e in g.EdgesOf(ts) ensures IsEdge(g, e) {
        if e in g.EdgeOf(u) {
          assert g.EdgeOf(u) == [e];
        }
      }
    }
  }

  lemma {:induction false} EdgesHave(g: Graph, ts: seq<Triple>, u: Triple)
    requires u in ts
    ensures forall e :: e in g.EdgeOf(u) ==> e in g.EdgesOf(ts)
  {
    LastOrBefore(ts);
    if u != ts[|ts| - 1] {
      EdgesHave(g, ts[..|ts| - 1], u);
    }
  }

  // All that the other proofs know of the stream.
  lemma StreamIs(g: Graph, out: seq<Stmt>)
    requires IsDot(g, out)
    ensures forall s :: s in out ==> IsEdge(g, s) || IsBlock(g, TableKeys(g, g.collapsed), s) || IsNode(g, g.Nodes(), s)
    ensures forall key :: key in TableKeys(g, g.collapsed) ==> PointerOf(g, key) in out && HasTable(g, key, out)
    ensures forall x :: x in g.Nodes() && g.Owners(x) == [] ==> NodeOf(g, x) in out
    ensures forall u, e :: u in g.triples && e in g.EdgeOf(u) ==> e in out
  {
    var keys := TableKeys(g, g.collapsed);
    forall u | u in g.triples ensures forall e :: e in g.EdgeOf(u) ==> e in g.EdgesOf(g.triples) {
      EdgesHave(g, g.triples, u);
    }
    var blocks :| IsBlocks(g, keys, blocks) && out == g.EdgesOf(g.triples) + blocks + NodesDeclared(g, g.Nodes());
    EdgesAre(g, g.triples);
    NodesDeclaredAre(g, g.Nodes());
    forall s | s in blocks ensures IsBlock(g, keys, s) {
      BlocksCover(g, keys, blocks, s);
    }
    forall key | key in keys ensures PointerOf(g, key) in out && HasTable(g, key, out) {
      BlocksHave(g, keys, blocks, key);
      var s :| s in blocks && IsTable(g, key.prop, key.subj, s);
      assert s in out;
    }
  }

  lemma EdgeComesFrom(g: Graph, out: seq<Stmt>, s: Stmt) returns (u: Triple)
    requires IsDot(g, out) && s in out && s.Edge?
    ensures u in g.triples && g.EdgeOf(u) == [s]
  {
    StreamIs(g, out);
    assert IsEdge(g, s);
    u :| u in g.triples && g.EdgeOf(u) == [s];
  }
}
