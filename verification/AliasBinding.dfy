/** lib_common.BindIdenticalNodes: the nodes of the same object are linked together. */
module AliasBinding {
  import opened Text
  import opened Collections
  import opened Properties

  datatype Node = Literal(text: string) | Uri(url: string)

  datatype Triple = Triple(subj: Node, pred: string, obj: Node)

  // ---- entities ----

  function Contains(s: string, part: string): (r: bool)
    ensures r <==> exists i :: 0 <= i <= |s| && part <= s[i..]
  {
    if part <= s then assert part <= s[0..]; true
    else if s == "" then false
    else
      assert forall i :: 0 < i <= |s| ==> s[i..] == s[1..][i - 1..];
      Contains(s[1..], part)
  }

  predicate HasUnivAlias(n: Node)
  {
    n.Uri? && (Contains(n.url, "entity.py") || Contains(n.url, "entity_wbem.py") || Contains(n.url, "entity_wmi.py"))
  }

  function Entities(graph: set<Triple>): set<Node>
  {
    (set t | t in graph && HasUnivAlias(t.subj) :: t.subj) + (set t | t in graph && HasUnivAlias(t.obj) :: t.obj)
  }

  // ---- aliases ----

  // How the network location is read in an URL, and how an object is described once its host is known.
  datatype Naming = Naming(netloc: string -> string, labText: (string, string) -> string)
  {
    // Whatever the letter case of the host and its port, an object has one alias.
    function UniversalAlias(url: string): string
    {
      var location := netloc(url);
      labText(url, Lower(location[..IndexOf(location, ':')]))
    }

    function AliasOf(n: Node): string
      requires n.Uri?
    {
      UniversalAlias(n.url)
    }

    predicate SameObject(a: Node, b: Node)
      requires a.Uri? && b.Uri?
    {
      AliasOf(a) == AliasOf(b)
    }

    function Group(graph: set<Triple>, alias: string): (r: set<Node>)
      ensures forall n :: n in r ==> n.Uri?
    {
      set n | n in Entities(graph) && AliasOf(n) == alias
    }

    function AliasesOf(graph: set<Triple>): set<string>
    {
      set n | n in Entities(graph) :: AliasOf(n)
    }

    // The nodes of each alias.
    ghost predicate IsGrouping(groups: map<string, set<Node>>, graph: set<Triple>)
    {
      && groups.Keys == AliasesOf(graph)
      && (forall u :: u in groups ==> groups[u] == Group(graph, u))
    }

    // Each group is enumerated, in any order.
    ghost predicate Enumerates(orders: map<string, seq<Node>>, groups: map<string, set<Node>>)
    {
      && orders.Keys == groups.Keys
      && (forall u :: u in orders ==> IsOrder(orders[u], groups[u]))
    }
  }

  ghost predicate IsOrder(order: seq<Node>, nodes: set<Node>)
  {
    && (forall n :: n in order <==> n in nodes)
    && (forall i, j :: 0 <= i < j < |order| ==> order[i] != order[j])
  }

  function EdgeAfter(order: seq<Node>, i: nat): Triple
    requires i + 1 < |order|
  {
    Triple(order[i], ALIAS, order[i + 1])
  }

  function Chain(order: seq<Node>): set<Triple>
  {
    set i: nat | i < |order| - 1 :: EdgeAfter(order, i)
  }

  ghost function Chains(orders: map<string, seq<Node>>): set<Triple>
  {
    set u, t | u in orders && t in Chain(orders[u]) :: t
  }

  lemma ChainGrows(order: seq<Node>, n: Node)
    requires order != []
    ensures Chain(order + [n]) == Chain(order) + {Triple(order[|order| - 1], ALIAS, n)}
  {
    var more := order + [n];
    assert more[|order| - 1] == order[|order| - 1] && more[|order|] == n;
    assert forall i: nat :: i + 1 < |order| ==> EdgeAfter(order, i) == EdgeAfter(more, i);
    assert EdgeAfter(more, |order| - 1) in Chain(more);
  }

  lemma ChainsGrow(orders: map<string, seq<Node>>, u: string, order: seq<Node>)
    requires u !in orders
    ensures Chains(orders[u := order]) == Chains(orders) + Chain(order)
  {
    var more := orders[u := order];
    assert forall v :: v in orders ==> v in more && more[v] == orders[v];
    assert u in more && more[u] == order;
  }

  lemma ChainOfFew(order: seq<Node>, nodes: set<Node>)
    requires IsOrder(order, nodes) && |nodes| < 2
    ensures Chain(order) == {}
  {
    if |order| >= 2 {
      var pair := {order[0], order[1]};
      assert pair <= nodes && |pair| == 2;
      Subset(pair, nodes);
    }
  }

  lemma {:induction false} Subset<T>(a: set<T>, b: set<T>)
    requires a <= b
    ensures |a| <= |b|
    ensures |a| == |b| ==> a == b
  {
    assert b == a + (b - a);
    assert |b| == |a| + |b - a|;
  }

  // ---- what was added ----

  // What one run of the binding gives, for some order of the enumerations.
  ghost predicate IsBinding(naming: Naming, before: set<Triple>, after: set<Triple>)
  {
    exists groups: map<string, set<Node>>, orders: map<string, seq<Node>> {:trigger naming.Enumerates(orders, groups)} ::
      naming.IsGrouping(groups, before) && naming.Enumerates(orders, groups) && after == before + Chains(orders)
  }

  ghost predicate Linked(graph: set<Triple>, a: Node, b: Node)
  {
    Triple(a, ALIAS, b) in graph || Triple(b, ALIAS, a) in graph
  }

  ghost predicate IsPath(graph: set<Triple>, path: seq<Node>)
  {
    forall i :: 0 <= i < |path| - 1 ==> Linked(graph, path[i], path[i + 1])
  }

  // Through alias edges, taken in any direction.
  ghost predicate Connected(graph: set<Triple>, a: Node, b: Node)
  {
    exists path: seq<Node> :: path != [] && path[0] == a && path[|path| - 1] == b && IsPath(graph, path)
  }

  // The alias edges which were already there are right, or there is none.
  ghost predicate SoundAliases(naming: Naming, graph: set<Triple>)
  {
    forall t :: t in graph && t.pred == ALIAS ==> HasUnivAlias(t.subj) && HasUnivAlias(t.obj) && naming.SameObject(t.subj, t.obj)
  }

  lemma ChainsAreSound(naming: Naming, graph: set<Triple>, groups: map<string, set<Node>>, orders: map<string, seq<Node>>, t: Triple)
    requires naming.IsGrouping(groups, graph) && naming.Enumerates(orders, groups) && t in Chains(orders)
    ensures HasUnivAlias(t.subj) && HasUnivAlias(t.obj) && naming.SameObject(t.subj, t.obj) && t.pred == ALIAS
    ensures t.subj in Entities(graph) && t.obj in Entities(graph) && t.subj != t.obj
  {
    var u :| u in orders && t in Chain(orders[u]);
    var order := orders[u];
    var i: nat :| i < |order| - 1 && t == EdgeAfter(order, i);
    assert order[i] in order && order[i + 1] in order && order[i] in groups[u] && order[i + 1] in groups[u];
  }

  // Only alias edges between different nodes of one object are added; nothing else changes.
  lemma OnlyAliasesAreAdded(naming: Naming, before: set<Triple>, after: set<Triple>)
    requires IsBinding(naming, before, after)
    ensures before <= after
    ensures forall t :: t in after - before ==> t.pred == ALIAS && t.subj != t.obj && HasUnivAlias(t.subj) && HasUnivAlias(t.obj)
    ensures forall t :: t in after - before ==> naming.SameObject(t.subj, t.obj)
    ensures Entities(after) == Entities(before)
    ensures SoundAliases(naming, before) ==> SoundAliases(naming, after)
  {
    var groups, orders :| naming.IsGrouping(groups, before) && naming.Enumerates(orders, groups) && after == before + Chains(orders);
    forall t | t in Chains(orders)
      ensures HasUnivAlias(t.subj) && HasUnivAlias(t.obj) && naming.SameObject(t.subj, t.obj) && t.pred == ALIAS
      ensures t.subj in Entities(before) && t.obj in Entities(before) && t.subj != t.obj
    {
      ChainsAreSound(naming, before, groups, orders, t);
    }
  }

  lemma {:induction false} PathKeepsAlias(naming: Naming, graph: set<Triple>, path: seq<Node>)
    requires SoundAliases(naming, graph) && path != [] && HasUnivAlias(path[0]) && IsPath(graph, path)
    ensures HasUnivAlias(path[|path| - 1]) && naming.SameObject(path[0], path[|path| - 1])
  {
    if |path| > 1 {
      var init := path[..|path| - 1];
      assert forall i :: 0 <= i < |init| - 1 ==> Linked(graph, path[i], path[i + 1]);
      PathKeepsAlias(naming, graph, init);
      assert Linked(graph, path[|path| - 2], path[|path| - 2 + 1]);
    }
  }

  lemma ConnectedIsSymmetric(graph: set<Triple>, a: Node, b: Node)
    requires Connected(graph, a, b)
    ensures Connected(graph, b, a)
  {
    var path: seq<Node> :| path != [] && path[0] == a && path[|path| - 1] == b && IsPath(graph, path);
    ReversedIsPath(graph, path);
    var back := Reversed(path);
    assert back[0] == b && back[|back| - 1] == a && IsPath(graph, back);
  }

  function Reversed(path: seq<Node>): (back: seq<Node>)
    ensures |back| == |path|
    ensures forall i :: 0 <= i < |path| ==> back[i] == path[|path| - 1 - i]
  {
    seq(|path|, i requires 0 <= i < |path| => path[|path| - 1 - i])
  }

  lemma ReversedIsPath(graph: set<Triple>, path: seq<Node>)
    requires IsPath(graph, path)
    ensures IsPath(graph, Reversed(path))
  {
    var back := Reversed(path);
    forall i | 0 <= i < |back| - 1 ensures Linked(graph, back[i], back[i + 1]) {
      var j := |path| - 2 - i;
      assert Linked(graph, path[j], path[j + 1]);
    }
  }

  lemma ChainConnects(graph: set<Triple>, order: seq<Node>, i: nat, j: nat)
    requires Chain(order) <= graph && i <= j < |order|
    ensures Connected(graph, order[i], order[j])
  {
    var path := order[i..j + 1];
    forall k | 0 <= k < |path| - 1 ensures Linked(graph, path[k], path[k + 1]) {
      assert EdgeAfter(order, i + k) in Chain(order);
      assert path[k] == order[i + k] && path[k + 1] == order[i + k + 1];
    }
    assert path[0] == order[i] && path[|path| - 1] == order[j] && IsPath(graph, path);
  }

  lemma ListedAreConnected(graph: set<Triple>, order: seq<Node>, a: Node, b: Node)
    requires Chain(order) <= graph && a in order && b in order
    ensures Connected(graph, a, b)
  {
    var i :| 0 <= i < |order| && order[i] == a;
    var j :| 0 <= j < |order| && order[j] == b;
    if i <= j {
      ChainConnects(graph, order, i, j);
    } else {
      ChainConnects(graph, order, j, i);
      ConnectedIsSymmetric(graph, b, a);
    }
  }

  lemma NodeIsListed(naming: Naming, graph: set<Triple>, groups: map<string, set<Node>>, orders: map<string, seq<Node>>, n: Node)
    requires naming.IsGrouping(groups, graph) && naming.Enumerates(orders, groups) && n in Entities(graph)
    ensures naming.AliasOf(n) in orders && n in orders[naming.AliasOf(n)]
  {
    var u := naming.AliasOf(n);
    assert u in groups && n in groups[u];
    assert IsOrder(orders[u], groups[u]);
  }

  lemma SameObjectsAreConnected(naming: Naming, before: set<Triple>, after: set<Triple>, a: Node, b: Node)
    requires IsBinding(naming, before, after)
    requires a in Entities(before) && b in Entities(before) && naming.SameObject(a, b)
    ensures Connected(after, a, b)
  {
    var groups, orders :| naming.IsGrouping(groups, before) && naming.Enumerates(orders, groups) && after == before + Chains(orders);
    var u := naming.AliasOf(a);
    NodeIsListed(naming, before, groups, orders, a);
    NodeIsListed(naming, before, groups, orders, b);
    assert forall t :: t in Chain(orders[u]) ==> t in Chains(orders);
    ListedAreConnected(after, orders[u], a, b);
  }

  // The main result: the connected components are exactly the objects.
  lemma ConnectedIffSameObject(naming: Naming, before: set<Triple>, after: set<Triple>, a: Node, b: Node)
    requires IsBinding(naming, before, after) && SoundAliases(naming, before)
    requires a in Entities(before) && b in Entities(before)
    ensures Connected(after, a, b) <==> naming.SameObject(a, b)
  {
    if Connected(after, a, b) {
      OnlyAliasesAreAdded(naming, before, after);
      var path: seq<Node> :| path != [] && path[0] == a && path[|path| - 1] == b && IsPath(after, path);
      PathKeepsAlias(naming, after, path);
    }
    if naming.SameObject(a, b) {
      SameObjectsAreConnected(naming, before, after, a, b);
    }
  }

  lemma ConnectedToItself(graph: set<Triple>, a: Node)
    ensures Connected(graph, a, a)
  {
    var path := [a];
    assert path != [] && path[0] == a && path[|path| - 1] == a && IsPath(graph, path);
  }

  // A node which is not an entity is connected to nothing else.
  lemma OthersAreAlone(naming: Naming, before: set<Triple>, after: set<Triple>, a: Node, b: Node)
    requires IsBinding(naming, before, after) && SoundAliases(naming, before) && !HasUnivAlias(a)
    ensures Connected(after, a, b) <==> a == b
  {
    OnlyAliasesAreAdded(naming, before, after);
    ConnectedToItself(after, a);
    if Connected(after, a, b) {
      var path: seq<Node> :| path != [] && path[0] == a && path[|path| - 1] == b && IsPath(after, path);
      NoWayOut(naming, after, path);
    }
  }

  lemma NoWayOut(naming: Naming, graph: set<Triple>, path: seq<Node>)
    requires SoundAliases(naming, graph) && path != [] && !HasUnivAlias(path[0]) && IsPath(graph, path)
    ensures |path| == 1
  {
    assert |path| > 1 ==> Linked(graph, path[0], path[0 + 1]);
  }

  // Binding again changes no connection, whatever the orders of the two enumerations.
  lemma BindingAgain(naming: Naming, before: set<Triple>, once: set<Triple>, twice: set<Triple>, a: Node, b: Node)
    requires IsBinding(naming, before, once) && IsBinding(naming, once, twice) && SoundAliases(naming, before)
    requires a in Entities(before) && b in Entities(before)
    ensures Connected(twice, a, b) <==> Connected(once, a, b)
  {
    OnlyAliasesAreAdded(naming, before, once);
    ConnectedIffSameObject(naming, before, once, a, b);
    ConnectedIffSameObject(naming, once, twice, a, b);
  }

  // ---- how many edges ----

  ghost function NodesIn(orders: map<string, seq<Node>>): set<Node>
  {
    set u, n | u in orders && n in orders[u] :: n
  }

  lemma {:induction false} ChainLength(order: seq<Node>)
    requires order != [] && NoDup(order)
    ensures |Chain(order)| == |order| - 1 && |NodesOf(order)| == |order|
  {
    if |order| == 1 {
      assert Chain(order) == {} && NodesOf(order) == {order[0]};
    } else {
      var init, last := order[..|order| - 1], order[|order| - 1];
      assert order == init + [last];
      ChainLength(init);
      ChainGrows(init, last);
      LastIsNew(init, last);
    }
  }

  lemma LastIsNew(init: seq<Node>, last: Node)
    requires init != [] && NoDup(init + [last])
    ensures Triple(init[|init| - 1], ALIAS, last) !in Chain(init)
    ensures NodesOf(init + [last]) == NodesOf(init) + {last} && last !in NodesOf(init)
  {
    var order := init + [last];
    assert forall i :: 0 <= i < |init| ==> init[i] == order[i];
    assert order[|init|] == last;
    forall t | t in Chain(init) ensures t.obj in init {
      var i: nat :| i < |init| - 1 && t == EdgeAfter(init, i);
    }
  }

  ghost predicate Separate(naming: Naming, orders: map<string, seq<Node>>)
  {
    && (forall u :: u in orders ==> orders[u] != [] && NoDup(orders[u]))
    && (forall u, n :: u in orders && n in orders[u] ==> n.Uri? && naming.AliasOf(n) == u)
  }

  ghost function NodesOf(order: seq<Node>): set<Node> { set n | n in order }

  ghost function SubjectsOf(edges: set<Triple>): set<Node> { set t | t in edges :: t.subj }

  lemma SubjectsOfChain(order: seq<Node>)
    ensures SubjectsOf(Chain(order)) <= NodesOf(order)
  {
    forall t | t in Chain(order) ensures t.subj in NodesOf(order) {
      var i: nat :| i < |order| - 1 && t == EdgeAfter(order, i);
    }
  }

  lemma SubjectsOfChains(orders: map<string, seq<Node>>)
    ensures SubjectsOf(Chains(orders)) <= NodesIn(orders)
  {
    forall t | t in Chains(orders) ensures t.subj in NodesIn(orders) {
      var u :| u in orders && t in Chain(orders[u]);
      SubjectsOfChain(orders[u]);
      assert t.subj in SubjectsOf(Chain(orders[u]));
    }
  }

  lemma DisjointEdges(a: set<Triple>, b: set<Triple>)
    requires SubjectsOf(a) !! SubjectsOf(b)
    ensures |a + b| == |a| + |b|
  {
    forall t | t in a ensures t !in b {
      assert t.subj in SubjectsOf(a);
      assert t in b ==> t.subj in SubjectsOf(b);
    }
    assert a !! b;
  }

  lemma GroupIsApart(naming: Naming, others: map<string, seq<Node>>, u: string, order: seq<Node>)
    requires u !in others && Separate(naming, others[u := order])
    ensures Separate(naming, others) && order != [] && NoDup(order)
    ensures NodesIn(others) !! NodesOf(order)
  {
    var orders := others[u := order];
    assert orders[u] == order && forall v :: v in others ==> v in orders && orders[v] == others[v];
    forall n | n in NodesIn(others) ensures n !in order {
      var v :| v in others && n in others[v];
      assert n in orders[v] && naming.AliasOf(n) == v;
    }
  }

  lemma OneMoreGroup(naming: Naming, others: map<string, seq<Node>>, u: string, order: seq<Node>)
    requires u !in others && Separate(naming, others[u := order])
    ensures Separate(naming, others)
    ensures |Chains(others[u := order])| == |Chains(others)| + |order| - 1
    ensures |NodesIn(others[u := order])| == |NodesIn(others)| + |order|
  {
    GroupIsApart(naming, others, u, order);
    ChainsGrow(others, u, order);
    ChainLength(order);
    NodesGrow(others, u, order);
    SubjectsOfChain(order);
    SubjectsOfChains(others);
    DisjointEdges(Chains(others), Chain(order));
  }

  lemma NodesGrow(others: map<string, seq<Node>>, u: string, order: seq<Node>)
    requires u !in others
    ensures NodesIn(others[u := order]) == NodesIn(others) + NodesOf(order)
  {
    var orders := others[u := order];
    assert orders[u] == order && forall v :: v in others ==> v in orders && orders[v] == others[v];
  }

  lemma {:induction false} CountChains(naming: Naming, orders: map<string, seq<Node>>)
    requires Separate(naming, orders)
    ensures |Chains(orders)| == |NodesIn(orders)| - |orders|
    decreases orders.Keys
  {
    if orders.Keys == {} {
      assert Chains(orders) == {} && NodesIn(orders) == {} && orders == map[];
    } else {
      var u :| u in orders;
      var others := orders - {u};
      assert others.Keys == orders.Keys - {u} && orders == others[u := orders[u]];
      OneMoreGroup(naming, others, u, orders[u]);
      CountChains(naming, others);
    }
  }

  // One edge less than nodes, for each object.
  lemma EdgesAdded(naming: Naming, before: set<Triple>, after: set<Triple>)
    requires IsBinding(naming, before, after) && (forall t :: t in before ==> t.pred != ALIAS)
    ensures |after| - |before| == |Entities(before)| - |naming.AliasesOf(before)|
  {
    var groups, orders :| naming.IsGrouping(groups, before) && naming.Enumerates(orders, groups) && after == before + Chains(orders);
    EnumerationsAreSeparate(naming, before, groups, orders);
    CountChains(naming, orders);
    assert |orders| == |orders.Keys|;
    forall t | t in Chains(orders) ensures t !in before {
      ChainsAreSound(naming, before, groups, orders, t);
    }
    assert before !! Chains(orders);
  }

  lemma EnumerationsAreSeparate(naming: Naming, graph: set<Triple>, groups: map<string, set<Node>>, orders: map<string, seq<Node>>)
    requires naming.IsGrouping(groups, graph) && naming.Enumerates(orders, groups)
    ensures Separate(naming, orders) && NodesIn(orders) == Entities(graph)
  {
    forall u | u in orders ensures orders[u] != [] && NoDup(orders[u]) {
      assert IsOrder(orders[u], groups[u]);
      var n :| n in Entities(graph) && naming.AliasOf(n) == u;
      NodeIsListed(naming, graph, groups, orders, n);
    }
    forall n | n in Entities(graph) ensures n in NodesIn(orders) {
      NodeIsListed(naming, graph, groups, orders, n);
    }
  }

  // ---- the program ----

  // The aliases already calculated, for the life of the process.
  class AliasCache {
    const naming: Naming
    var dictNodeToUniversalAlias: map<string, string>

    ghost predicate Valid()
      reads this
    {
      forall url :: url in dictNodeToUniversalAlias ==> dictNodeToUniversalAlias[url] == naming.UniversalAlias(url)
    }

    constructor (naming: Naming)
      ensures Valid() && this.naming == naming
    {
      this.naming := naming;
      dictNodeToUniversalAlias := map[];
    }

    method NodeToUniversalAlias(url: string) returns (alias: string)
      requires Valid()
      modifies this
      ensures Valid() && alias == naming.UniversalAlias(url)
      ensures dictNodeToUniversalAlias.Keys == old(dictNodeToUniversalAlias.Keys) + {url}
    {
      if url in dictNodeToUniversalAlias {
        return dictNodeToUniversalAlias[url];
      }
      alias := naming.UniversalAlias(url);
      dictNodeToUniversalAlias := dictNodeToUniversalAlias[url := alias];
    }
  }

  class CgiEnv {
    const cache: AliasCache
    var graph: set<Triple>

    constructor (cache: AliasCache, graph: set<Triple>)
      ensures this.cache == cache && this.graph == graph
    {
      this.cache := cache;
      this.graph := graph;
    }

    ghost predicate Grouped(groups: map<string, set<Node>>, nodes: set<Node>)
    {
      && groups.Keys == (set n | n in nodes && HasUnivAlias(n) :: cache.naming.AliasOf(n))
      && (forall u :: u in groups ==> groups[u] == set n | n in nodes && HasUnivAlias(n) && cache.naming.AliasOf(n) == u)
    }

    method PrepareBinding(n: Node, groups: map<string, set<Node>>, ghost nodes: set<Node>) returns (r: map<string, set<Node>>)
      requires cache.Valid() && Grouped(groups, nodes)
      modifies cache
      ensures cache.Valid() && Grouped(r, nodes + {n})
    {
      r := groups;
      if !HasUnivAlias(n) {
        return;
      }
      var alias := cache.NodeToUniversalAlias(n.url);
      GroupedMore(groups, nodes, n);
      r := r[alias := (if alias in r then r[alias] else {}) + {n}];
    }

    lemma GroupedMore(groups: map<string, set<Node>>, nodes: set<Node>, n: Node)
      requires Grouped(groups, nodes) && HasUnivAlias(n)
      ensures
        var alias := cache.naming.AliasOf(n);
        Grouped(groups[alias := (if alias in groups then groups[alias] else {}) + {n}], nodes + {n})
    {
    }

    ghost function Nodes(triples: set<Triple>): set<Node>
    {
      (set t | t in triples :: t.subj) + (set t | t in triples :: t.obj)
    }

    lemma GroupedIsGrouping(groups: map<string, set<Node>>, triples: set<Triple>)
      requires Grouped(groups, Nodes(triples))
      ensures cache.naming.IsGrouping(groups, triples)
    {
      assert forall n :: n in Entities(triples) <==> n in Nodes(triples) && HasUnivAlias(n);
    }

    method FindGroups() returns (groups: map<string, set<Node>>)
      requires cache.Valid()
      modifies cache
      ensures cache.Valid() && cache.naming.IsGrouping(groups, graph)
    {
      groups := map[];
      var todo := graph;
      while todo != {}
        invariant todo <= graph && cache.Valid()
        invariant Grouped(groups, Nodes(graph - todo))
        decreases todo
      {
        var t :| t in todo;
        ghost var done := Nodes(graph - todo);
        todo := todo - {t};
        groups := PrepareBinding(t.subj, groups, done);
        groups := PrepareBinding(t.obj, groups, done + {t.subj});
        assert Nodes(graph - todo) == done + {t.subj} + {t.obj};
      }
      assert graph - todo == graph;
      GroupedIsGrouping(groups, graph);
    }

    // The nodes of one object, one after the other.
    method BindGroup(relatedNodes: set<Node>) returns (ghost order: seq<Node>)
      modifies this`graph
      ensures IsOrder(order, relatedNodes) && graph == old(graph) + Chain(order)
    {
      order := [];
      var nodePrevious: seq<Node> := [];
      var todo := relatedNodes;
      while todo != {}
        invariant todo <= relatedNodes && IsOrder(order, relatedNodes - todo)
        invariant graph == old(graph) + Chain(order)
        invariant nodePrevious == if order == [] then [] else [order[|order| - 1]]
        decreases todo
      {
        var otherNode :| otherNode in todo;
        todo := todo - {otherNode};
        if nodePrevious != [] {
          graph := graph + {Triple(nodePrevious[0], ALIAS, otherNode)};
          ChainGrows(order, otherNode);
        }
        nodePrevious := [otherNode];
        order := order + [otherNode];
      }
    }

    // There is nothing to link when an object has only one node.
    method BindObject(relatedNodes: set<Node>) returns (ghost order: seq<Node>)
      modifies this`graph
      ensures IsOrder(order, relatedNodes) && graph == old(graph) + Chain(order)
    {
      if |relatedNodes| < 2 {
        order := OrderOf(relatedNodes);
        ChainOfFew(order, relatedNodes);
        return;
      }
      order := BindGroup(relatedNodes);
    }

    method BindGroups(groups: map<string, set<Node>>) returns (ghost orders: map<string, seq<Node>>)
      modifies this`graph
      ensures EnumeratesSome(orders, groups) && orders.Keys == groups.Keys
      ensures graph == old(graph) + Chains(orders)
    {
      orders := map[];
      var todo := groups.Keys;
      while todo != {}
        invariant todo <= groups.Keys && orders.Keys == groups.Keys - todo
        invariant EnumeratesSome(orders, groups)
        invariant graph == old(graph) + Chains(orders)
        decreases todo
      {
        var alias :| alias in todo;
        todo := todo - {alias};
        ghost var order := BindObject(groups[alias]);
        OneMoreOrder(orders, groups, alias, order);
        orders := orders[alias := order];
      }
    }

    method BindIdenticalNodes()
      requires cache.Valid()
      modifies this`graph, cache
      ensures cache.Valid() && IsBinding(cache.naming, old(graph), graph)
    {
      var groups := FindGroups();
      ghost var orders := BindGroups(groups);
      assert cache.naming.Enumerates(orders, groups);
    }
  }

  ghost predicate EnumeratesSome(orders: map<string, seq<Node>>, groups: map<string, set<Node>>)
  {
    forall u :: u in orders ==> u in groups && IsOrder(orders[u], groups[u])
  }

  lemma OneMoreOrder(orders: map<string, seq<Node>>, groups: map<string, set<Node>>, u: string, order: seq<Node>)
    requires EnumeratesSome(orders, groups) && u in groups && u !in orders && IsOrder(order, groups[u])
    ensures EnumeratesSome(orders[u := order], groups)
    ensures orders[u := order].Keys == orders.Keys + {u}
    ensures Chains(orders[u := order]) == Chains(orders) + Chain(order)
  {
    ChainsGrow(orders, u, order);
  }

  // Some enumeration of a set.
  ghost function OrderOf(nodes: set<Node>): (order: seq<Node>)
    ensures IsOrder(order, nodes)
  {
    if nodes == {} then []
    else
      var n :| n in nodes;
      OrderOf(nodes - {n}) + [n]
  }
}
