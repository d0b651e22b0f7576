/** lib_wbem: the class tree of a namespace, restricted to the classes which have a provider. */
module WbemClasses {
  import opened Collections

  // The root of the tree is None.
  datatype Name = Root | Class(name: string)

  datatype Klass = Klass(classname: string, superclass: Name)

  // ---- the tree ----

  function ChildrenOf(klasses: seq<Klass>, parent: Name): (r: seq<Klass>)
    ensures forall c :: c in r <==> c in klasses && c.superclass == parent
  {
    if klasses == [] then []
    else
      var last := klasses[|klasses| - 1];
      ChildrenOf(klasses[..|klasses| - 1], parent) + (if last.superclass == parent then [last] else [])
  }

  ghost predicate IsTree(tree: map<Name, seq<Klass>>, klasses: seq<Klass>)
  {
    && (forall n :: n in tree <==> ChildrenOf(klasses, n) != [])
    && (forall n :: n in tree ==> tree[n] == ChildrenOf(klasses, n))
  }

  method GetClassesTree(klasses: seq<Klass>) returns (tree: map<Name, seq<Klass>>)
    ensures IsTree(tree, klasses)
  {
    tree := map[];
    for i := 0 to |klasses|
      invariant IsTree(tree, klasses[..i])
    {
      var klass := klasses[i];
      assert klasses[..i + 1][..i] == klasses[..i];
      if klass.superclass in tree {
        tree := tree[klass.superclass := tree[klass.superclass] + [klass]];
      } else {
        tree := tree[klass.superclass := [klass]];
      }
    }
    assert klasses[..|klasses|] == klasses;
  }

  // ---- from the root to a class ----

  ghost predicate UniqueNames(klasses: seq<Klass>)
  {
    forall i, j :: 0 <= i < j < |klasses| ==> klasses[i].classname != klasses[j].classname
  }

  ghost predicate IsStep(klasses: seq<Klass>, parent: Name, child: Name)
  {
    child.Class? && Klass(child.name, parent) in klasses
  }

  ghost predicate IsPath(klasses: seq<Klass>, path: seq<Name>)
  {
    && path != [] && path[0] == Root
    && (forall i :: 0 < i < |path| ==> IsStep(klasses, path[i - 1], path[i]))
  }

  function End(path: seq<Name>): Name
    requires path != []
  {
    path[|path| - 1]
  }

  lemma PathGrows(klasses: seq<Klass>, path: seq<Name>, child: Klass)
    requires IsPath(klasses, path) && child in klasses && child.superclass == End(path)
    ensures IsPath(klasses, path + [Class(child.classname)])
  {
  }

  // There is only one way from the root to a class.
  lemma {:induction false} OnePath(klasses: seq<Klass>, p: seq<Name>, q: seq<Name>)
    requires UniqueNames(klasses) && IsPath(klasses, p) && IsPath(klasses, q) && End(p) == End(q)
    ensures p == q
    decreases |p|
  {
    if |p| == 1 || |q| == 1 {
      assert |q| > 1 ==> IsStep(klasses, q[|q| - 2], q[|q| - 1]);
      assert |p| > 1 ==> IsStep(klasses, p[|p| - 2], p[|p| - 1]);
    } else {
      var p1, q1 := p[..|p| - 1], q[..|q| - 1];
      assert IsStep(klasses, End(p1), End(p)) && IsStep(klasses, End(q1), End(q));
      assert forall i :: 0 < i < |p1| ==> IsStep(klasses, p[i - 1], p[i]);
      assert forall i :: 0 < i < |q1| ==> IsStep(klasses, q[i - 1], q[i]);
      OnePath(klasses, p1, q1);
      assert p == p1 + [End(p)] && q == q1 + [End(q)];
    }
  }

  lemma Prefix(klasses: seq<Klass>, path: seq<Name>, i: nat)
    requires IsPath(klasses, path) && i < |path|
    ensures IsPath(klasses, path[..i + 1]) && End(path[..i + 1]) == path[i]
  {
    assert forall k :: 0 < k < i + 1 ==> IsStep(klasses, path[k - 1], path[k]);
  }

  lemma NoCycle(klasses: seq<Klass>, path: seq<Name>, i: nat, j: nat)
    requires UniqueNames(klasses) && IsPath(klasses, path) && i < j < |path|
    ensures path[i] != path[j]
  {
    Prefix(klasses, path, i);
    Prefix(klasses, path, j);
    assert |path[..i + 1]| < |path[..j + 1]|;
    if path[i] == path[j] {
      OnePath(klasses, path[..i + 1], path[..j + 1]);
    }
  }

  lemma {:induction false} AtMost<T>(s: seq<T>, all: set<T>)
    requires forall i :: 0 <= i < |s| ==> s[i] in all
    requires forall i, j :: 0 <= i < j < |s| ==> s[i] != s[j]
    ensures |s| <= |all|
  {
    if s != [] {
      AtMost(s[1..], all - {s[0]});
    }
  }

  lemma {:induction false} SizeOfNames(klasses: seq<Klass>)
    ensures |set k | k in klasses :: Class(k.classname)| <= |klasses|
  {
    if klasses != [] {
      var n := |klasses| - 1;
      SizeOfNames(klasses[..n]);
      assert klasses == klasses[..n] + [klasses[n]];
      assert (set k | k in klasses :: Class(k.classname)) ==
             (set k | k in klasses[..n] :: Class(k.classname)) + {Class(klasses[n].classname)};
    }
  }

  // No path goes twice through a class, so none is longer than the list of the classes.
  lemma PathIsShort(klasses: seq<Klass>, path: seq<Name>)
    requires UniqueNames(klasses) && IsPath(klasses, path)
    ensures |path| <= |klasses| + 1
  {
    var names := set k | k in klasses :: Class(k.classname);
    forall i | 0 <= i < |path[1..]| ensures path[1..][i] in names {
      assert IsStep(klasses, path[i], path[i + 1]);
    }
    forall i, j | 0 <= i < j < |path[1..]| ensures path[1..][i] != path[1..][j] {
      NoCycle(klasses, path, i + 1, j + 1);
    }
    AtMost(path[1..], names);
    SizeOfNames(klasses);
  }

  // ---- what is kept ----

  // Some class with a provider is this one, or is below it.
  ghost predicate Lives(klasses: seq<Klass>, instrumented: set<string>, n: Name)
  {
    exists path :: IsPath(klasses, path) && n in path && End(path).Class? && End(path).name in instrumented
  }

  ghost function Kept(klasses: seq<Klass>, instrumented: set<string>, children: seq<Klass>): (r: seq<Klass>)
  {
    if children == [] then []
    else
      var last := children[|children| - 1];
      Kept(klasses, instrumented, children[..|children| - 1]) + (if Lives(klasses, instrumented, Class(last.classname)) then [last] else [])
  }

  // The path to this class goes through the end of the other one.
  ghost predicate Below(klasses: seq<Klass>, top: seq<Name>, n: Name)
  {
    exists path :: IsPath(klasses, path) && top <= path && End(path) == n
  }

  // Below a class: itself, or below one of its children.
  lemma BelowSplits(klasses: seq<Klass>, top: seq<Name>, n: Name)
    requires UniqueNames(klasses) && IsPath(klasses, top)
    ensures Below(klasses, top, n) <==>
      n == End(top) || exists c :: c in ChildrenOf(klasses, End(top)) && Below(klasses, top + [Class(c.classname)], n)
  {
    if Below(klasses, top, n) && n != End(top) {
      var path :| IsPath(klasses, path) && top <= path && End(path) == n;
      var child := path[|top|];
      assert IsStep(klasses, path[|top| - 1], child);
      var c := Klass(child.name, End(top));
      assert c in ChildrenOf(klasses, End(top));
      assert top + [child] <= path;
      assert Below(klasses, top + [Class(c.classname)], n);
    }
  }

  lemma ChildrenAreApart(klasses: seq<Klass>, top: seq<Name>, a: Klass, b: Klass, n: Name)
    requires UniqueNames(klasses) && IsPath(klasses, top)
    requires Below(klasses, top + [Class(a.classname)], n) && Below(klasses, top + [Class(b.classname)], n)
    ensures a.classname == b.classname
  {
    var p, q := top + [Class(a.classname)], top + [Class(b.classname)];
    var path :| IsPath(klasses, path) && p <= path && End(path) == n;
    var other :| IsPath(klasses, other) && q <= other && End(other) == n;
    OnePath(klasses, path, other);
    assert p[|top|] == q[|top|];
  }

  lemma TopIsNotBelowChild(klasses: seq<Klass>, top: seq<Name>, a: Klass)
    requires UniqueNames(klasses) && IsPath(klasses, top)
    ensures !Below(klasses, top + [Class(a.classname)], End(top))
  {
    if Below(klasses, top + [Class(a.classname)], End(top)) {
      var path :| IsPath(klasses, path) && top + [Class(a.classname)] <= path && End(path) == End(top);
      assert |path| > |top|;
      OnePath(klasses, path, top);
    }
  }

  lemma LivesIfChildLives(klasses: seq<Klass>, instrumented: set<string>, top: seq<Name>)
    requires UniqueNames(klasses) && IsPath(klasses, top)
    ensures Lives(klasses, instrumented, End(top)) <==>
      (End(top).Class? && End(top).name in instrumented)
      || exists c :: c in ChildrenOf(klasses, End(top)) && Lives(klasses, instrumented, Class(c.classname))
  {
    var n := End(top);
    if Lives(klasses, instrumented, n) {
      var path :| IsPath(klasses, path) && n in path && End(path).Class? && End(path).name in instrumented;
      var i :| 0 <= i < |path| && path[i] == n;
      if i < |path| - 1 {
        var below: Name := path[i + 1];
        assert IsStep(klasses, path[i + 1 - 1], below);
        var c := Klass(below.name, n);
        assert c in ChildrenOf(klasses, n) && Lives(klasses, instrumented, Class(c.classname));
      }
    }
    if n.Class? && n.name in instrumented {
      assert n in top;
    }
    if c :| c in ChildrenOf(klasses, n) && Lives(klasses, instrumented, Class(c.classname)) {
      ParentLives(klasses, instrumented, c);
    }
  }

  lemma ParentLives(klasses: seq<Klass>, instrumented: set<string>, c: Klass)
    requires UniqueNames(klasses) && c in klasses && Lives(klasses, instrumented, Class(c.classname))
    ensures Lives(klasses, instrumented, c.superclass)
  {
    var path :| IsPath(klasses, path) && Class(c.classname) in path && End(path).Class? && End(path).name in instrumented;
    var i :| 0 <= i < |path| && path[i] == Class(c.classname);
    assert IsStep(klasses, path[i - 1], path[i]);
    assert path[i - 1] in path;
  }

  // ---- the pruning ----

  // The entry of one class in the result.
  ghost predicate EntryIs(klasses: seq<Klass>, instrumented: set<string>, out: map<Name, seq<Klass>>, n: Name)
  {
    && (n in out <==> Lives(klasses, instrumented, n))
    && (n in out ==> out[n] == Kept(klasses, instrumented, ChildrenOf(klasses, n)))
  }

  ghost predicate SameEntry(out: map<Name, seq<Klass>>, before: map<Name, seq<Klass>>, n: Name)
  {
    (n in out <==> n in before) && (n in out ==> out[n] == before[n])
  }

  // What is below the end of this path is pruned, and nothing else is changed.
  ghost predicate Pruned(klasses: seq<Klass>, instrumented: set<string>, out: map<Name, seq<Klass>>, before: map<Name, seq<Klass>>, top: seq<Name>)
  {
    forall n :: if Below(klasses, top, n) then EntryIs(klasses, instrumented, out, n) else SameEntry(out, before, n)
  }

  ghost predicate Absent(klasses: seq<Klass>, out: map<Name, seq<Klass>>, top: seq<Name>)
  {
    forall n :: Below(klasses, top, n) ==> n !in out
  }

  // The first children are done.
  ghost predicate PartlyPruned(klasses: seq<Klass>, instrumented: set<string>, out: map<Name, seq<Klass>>, before: map<Name, seq<Klass>>, top: seq<Name>, done: seq<Klass>)
    requires top != []
  {
    && (forall n :: n != End(top) && (exists c :: c in done && Below(klasses, top + [Class(c.classname)], n)) ==>
          EntryIs(klasses, instrumented, out, n))
    && (forall n :: n != End(top) && (forall c :: c in done ==> !Below(klasses, top + [Class(c.classname)], n)) ==> SameEntry(out, before, n))
    && TopEntry(klasses, instrumented, out, End(top), done)
  }

  ghost predicate TopEntry(klasses: seq<Klass>, instrumented: set<string>, out: map<Name, seq<Klass>>, n: Name, done: seq<Klass>)
  {
    && (n in out <==> (n.Class? && n.name in instrumented) || Kept(klasses, instrumented, done) != [])
    && (n in out ==> out[n] == Kept(klasses, instrumented, done))
  }

  lemma {:induction false} KeptIff(klasses: seq<Klass>, instrumented: set<string>, children: seq<Klass>, c: Klass)
    ensures c in Kept(klasses, instrumented, children) <==> c in children && Lives(klasses, instrumented, Class(c.classname))
  {
    if children != [] {
      var n := |children| - 1;
      KeptIff(klasses, instrumented, children[..n], c);
      assert children == children[..n] + [children[n]];
    }
  }

  lemma {:induction false} KeptIsNotEmpty(klasses: seq<Klass>, instrumented: set<string>, children: seq<Klass>)
    ensures Kept(klasses, instrumented, children) != [] <==>
      exists c :: c in children && Lives(klasses, instrumented, Class(c.classname))
  {
    forall c ensures c in Kept(klasses, instrumented, children) <==> c in children && Lives(klasses, instrumented, Class(c.classname)) {
      KeptIff(klasses, instrumented, children, c);
    }
    if Kept(klasses, instrumented, children) != [] {
      assert Kept(klasses, instrumented, children)[0] in Kept(klasses, instrumented, children);
    }
  }

  lemma {:induction false} ChildrenAreUnique(klasses: seq<Klass>, n: Name, i: nat, j: nat)
    requires UniqueNames(klasses) && i < j < |ChildrenOf(klasses, n)|
    ensures ChildrenOf(klasses, n)[i].classname != ChildrenOf(klasses, n)[j].classname
  {
    var m := |klasses| - 1;
    var children, before := ChildrenOf(klasses, n), ChildrenOf(klasses[..m], n);
    if j < |before| {
      ChildrenAreUnique(klasses[..m], n, i, j);
    } else {
      assert children[i] == before[i] && before[i] in before;
      var k :| 0 <= k < m && klasses[k] == before[i];
    }
  }

  lemma BelowChild(klasses: seq<Klass>, top: seq<Name>, c: Klass, n: Name)
    requires Below(klasses, top + [Class(c.classname)], n)
    ensures Below(klasses, top, n)
  {
    var path :| IsPath(klasses, path) && top + [Class(c.classname)] <= path && End(path) == n;
    assert top <= path;
  }

  lemma EndIsBelow(klasses: seq<Klass>, instrumented: set<string>, p: seq<Name>)
    requires IsPath(klasses, p)
    ensures Below(klasses, p, End(p))
    ensures End(p).Class? && End(p).name in instrumented ==> Lives(klasses, instrumented, End(p))
  {
    assert End(p) in p;
  }

  class Pruning {
    const klasses: seq<Klass>
    const tree: map<Name, seq<Klass>>
    const instrumented: set<string>
    var out: map<Name, seq<Klass>>

    ghost predicate Valid()
    {
      IsTree(tree, klasses) && UniqueNames(klasses)
    }

    constructor (klasses: seq<Klass>, tree: map<Name, seq<Klass>>, instrumented: set<string>)
      ensures this.klasses == klasses && this.tree == tree && this.instrumented == instrumented && out == map[]
    {
      this.klasses := klasses;
      this.tree := tree;
      this.instrumented := instrumented;
      out := map[];
    }

    // What out becomes when a child is kept.
    ghost function Adopt(out1: map<Name, seq<Klass>>, n: Name, c: Klass): map<Name, seq<Klass>>
    {
      if Lives(klasses, instrumented, Class(c.classname)) then out1[n := (if n in out1 then out1[n] else []) + [c]] else out1
    }

    lemma OneMoreChild(before: map<Name, seq<Klass>>, out0: map<Name, seq<Klass>>, out1: map<Name, seq<Klass>>, top: seq<Name>, done: seq<Klass>, c: Klass)
      requires Valid() && IsPath(klasses, top)
      requires PartlyPruned(klasses, instrumented, out0, before, top, done)
      requires Pruned(klasses, instrumented, out1, out0, top + [Class(c.classname)])
      ensures PartlyPruned(klasses, instrumented, Adopt(out1, End(top), c), before, top, done + [c])
    {
      var out2 := Adopt(out1, End(top), c);
      var more := done + [c];
      forall n | n != End(top) && (exists d :: d in more && Below(klasses, top + [Class(d.classname)], n))
        ensures EntryIs(klasses, instrumented, out2, n)
      {
        if !Below(klasses, top + [Class(c.classname)], n) {
          assert SameEntry(out1, out0, n) && EntryIs(klasses, instrumented, out0, n);
        }
        assert EntryIs(klasses, instrumented, out1, n) && SameEntry(out2, out1, n);
      }
      forall n | n != End(top) && (forall d :: d in more ==> !Below(klasses, top + [Class(d.classname)], n))
        ensures SameEntry(out2, before, n)
      {
        assert c in more && forall d :: d in done ==> d in more;
        assert SameEntry(out1, out0, n) && SameEntry(out0, before, n);
      }
      TopIsNotBelowChild(klasses, top, c);
      assert SameEntry(out1, out0, End(top));
      assert more[..|more| - 1] == done;
    }

    // Before the first child.
    lemma NoChildYet(before: map<Name, seq<Klass>>, top: seq<Name>)
      requires IsPath(klasses, top) && Absent(klasses, before, top)
      ensures
        var n := End(top);
        PartlyPruned(klasses, instrumented, if n.Class? && n.name in instrumented then before[n := []] else before, before, top, [])
    {
      EndIsBelow(klasses, instrumented, top);
      var n := End(top);
      var out1 := if n.Class? && n.name in instrumented then before[n := []] else before;
      assert Kept(klasses, instrumented, []) == [];
      forall m | m != n ensures SameEntry(out1, before, m) {
      }
    }

    // What is below the next child was not touched.
    lemma ChildIsAbsent(before: map<Name, seq<Klass>>, out0: map<Name, seq<Klass>>, top: seq<Name>, i: nat)
      requires Valid() && IsPath(klasses, top) && i < |ChildrenOf(klasses, End(top))|
      requires PartlyPruned(klasses, instrumented, out0, before, top, ChildrenOf(klasses, End(top))[..i])
      requires Absent(klasses, before, top)
      ensures Absent(klasses, out0, top + [Class(ChildrenOf(klasses, End(top))[i].classname)])
    {
      var children := ChildrenOf(klasses, End(top));
      var c, done := children[i], children[..i];
      var p := top + [Class(c.classname)];
      forall n | Below(klasses, p, n) ensures n !in out0 {
        TopIsNotBelowChild(klasses, top, c);
        forall d | d in done ensures !Below(klasses, top + [Class(d.classname)], n) {
          if Below(klasses, top + [Class(d.classname)], n) {
            ChildrenAreApart(klasses, top, c, d, n);
            var j :| 0 <= j < i && children[j] == d;
            ChildrenAreUnique(klasses, End(top), j, i);
          }
        }
        assert SameEntry(out0, before, n);
        BelowChild(klasses, top, c, n);
      }
    }

    lemma AllChildren(before: map<Name, seq<Klass>>, out1: map<Name, seq<Klass>>, top: seq<Name>)
      requires Valid() && IsPath(klasses, top)
      requires PartlyPruned(klasses, instrumented, out1, before, top, ChildrenOf(klasses, End(top)))
      ensures Pruned(klasses, instrumented, out1, before, top)
    {
      var children := ChildrenOf(klasses, End(top));
      forall n
        ensures if Below(klasses, top, n) then EntryIs(klasses, instrumented, out1, n) else SameEntry(out1, before, n)
      {
        BelowSplits(klasses, top, n);
        if n == End(top) {
          LivesIfChildLives(klasses, instrumented, top);
          KeptIsNotEmpty(klasses, instrumented, children);
        }
      }
    }

    // The test which decides if a child is kept.
    lemma TestIsLives(out0: map<Name, seq<Klass>>, out1: map<Name, seq<Klass>>, top: seq<Name>, c: Klass)
      requires Valid() && IsPath(klasses, top) && c in ChildrenOf(klasses, End(top))
      requires Pruned(klasses, instrumented, out1, out0, top + [Class(c.classname)])
      ensures c.classname in instrumented || Class(c.classname) in out1 <==> Lives(klasses, instrumented, Class(c.classname))
    {
      var p := top + [Class(c.classname)];
      PathGrows(klasses, top, c);
      EndIsBelow(klasses, instrumented, p);
      assert EntryIs(klasses, instrumented, out1, End(p));
    }

    // One class, whose own path from the root is given.
    method MakeInstrumentedRecu(topclassNam: Name, ghost top: seq<Name>)
      requires Valid() && IsPath(klasses, top) && End(top) == topclassNam && Absent(klasses, out, top)
      modifies this
      ensures Pruned(klasses, instrumented, out, old(out), top)
      decreases |klasses| + 1 - |top|, 1
    {
      PathIsShort(klasses, top);
      NoChildYet(out, top);
      if topclassNam.Class? && topclassNam.name in instrumented {
        out := out[topclassNam := []];
      }
      if topclassNam !in tree {
        AllChildren(old(out), out, top);
        return;
      }
      var children := tree[topclassNam];
      for i := 0 to |children|
        invariant PartlyPruned(klasses, instrumented, out, old(out), top, children[..i])
      {
        OneChild(topclassNam, top, i, children[i], old(out));
      }
      assert children[..|children|] == children;
      AllChildren(old(out), out, top);
    }

    method OneChild(topclassNam: Name, ghost top: seq<Name>, ghost i: nat, cl: Klass, ghost before: map<Name, seq<Klass>>)
      requires Valid() && IsPath(klasses, top) && End(top) == topclassNam && Absent(klasses, before, top)
      requires i < |ChildrenOf(klasses, topclassNam)| && cl == ChildrenOf(klasses, topclassNam)[i]
      requires PartlyPruned(klasses, instrumented, out, before, top, ChildrenOf(klasses, topclassNam)[..i])
      modifies this
      ensures PartlyPruned(klasses, instrumented, out, before, top, ChildrenOf(klasses, topclassNam)[..i + 1])
      decreases |klasses| + 1 - |top|, 0
    {
      ChildReady(before, out, top, i);
      MakeInstrumentedRecu(Class(cl.classname), top + [Class(cl.classname)]);
      ChildDone(before, old(out), out, top, i);
      KeepChild(topclassNam, cl);
    }

    method KeepChild(topclassNam: Name, cl: Klass)
      requires cl.classname in instrumented || Class(cl.classname) in out <==> Lives(klasses, instrumented, Class(cl.classname))
      modifies this
      ensures out == Adopt(old(out), topclassNam, cl)
    {
      if cl.classname in instrumented || Class(cl.classname) in out {
        if topclassNam in out {
          out := out[topclassNam := out[topclassNam] + [cl]];
        } else {
          out := out[topclassNam := [cl]];
          assert [] + [cl] == [cl];
        }
      }
    }

    lemma ChildReady(before: map<Name, seq<Klass>>, out0: map<Name, seq<Klass>>, top: seq<Name>, i: nat)
      requires Valid() && IsPath(klasses, top) && i < |ChildrenOf(klasses, End(top))|
      requires PartlyPruned(klasses, instrumented, out0, before, top, ChildrenOf(klasses, End(top))[..i])
      requires Absent(klasses, before, top)
      ensures
        var p := top + [Class(ChildrenOf(klasses, End(top))[i].classname)];
        IsPath(klasses, p) && |p| <= |klasses| + 1 && Absent(klasses, out0, p)
    {
      var c := ChildrenOf(klasses, End(top))[i];
      assert c in ChildrenOf(klasses, End(top));
      ChildIsAbsent(before, out0, top, i);
      PathGrows(klasses, top, c);
      PathIsShort(klasses, top + [Class(c.classname)]);
    }

    lemma ChildDone(before: map<Name, seq<Klass>>, out0: map<Name, seq<Klass>>, out1: map<Name, seq<Klass>>, top: seq<Name>, i: nat)
      requires Valid() && IsPath(klasses, top) && i < |ChildrenOf(klasses, End(top))|
      requires PartlyPruned(klasses, instrumented, out0, before, top, ChildrenOf(klasses, End(top))[..i])
      requires Pruned(klasses, instrumented, out1, out0, top + [Class(ChildrenOf(klasses, End(top))[i].classname)])
      ensures
        var c := ChildrenOf(klasses, End(top))[i];
        && (c.classname in instrumented || Class(c.classname) in out1 <==> Lives(klasses, instrumented, Class(c.classname)))
        && PartlyPruned(klasses, instrumented, Adopt(out1, End(top), c), before, top, ChildrenOf(klasses, End(top))[..i + 1])
    {
      var children := ChildrenOf(klasses, End(top));
      var c := children[i];
      NextPrefix(children, i);
      TestIsLives(out0, out1, top, c);
      OneMoreChild(before, out0, out1, top, children[..i], c);
    }

    // The result for the whole namespace.
    method Prune()
      requires Valid() && out == map[]
      modifies this
      ensures IsPruning(klasses, instrumented, out)
    {
      assert IsPath(klasses, [Root]);
      MakeInstrumentedRecu(Root, [Root]);
      PruningIsWhole(klasses, instrumented, out);
    }
  }

  // A class is a key if and only if there is a provider at this class or below; its children are then
  // all the subclasses which are keys, in the same order.
  ghost predicate IsPruning(klasses: seq<Klass>, instrumented: set<string>, out: map<Name, seq<Klass>>)
  {
    forall n :: EntryIs(klasses, instrumented, out, n)
  }

  lemma PruningIsWhole(klasses: seq<Klass>, instrumented: set<string>, out: map<Name, seq<Klass>>)
    requires UniqueNames(klasses) && Pruned(klasses, instrumented, out, map[], [Root])
    ensures IsPruning(klasses, instrumented, out)
  {
    forall n ensures EntryIs(klasses, instrumented, out, n) {
      if Lives(klasses, instrumented, n) {
        var path :| IsPath(klasses, path) && n in path && End(path).Class? && End(path).name in instrumented;
        var i :| 0 <= i < |path| && path[i] == n;
        Prefix(klasses, path, i);
        assert [Root] <= path[..i + 1];
        assert Below(klasses, [Root], n);
      }
      if !Below(klasses, [Root], n) {
        assert SameEntry(out, map[], n);
      }
    }
  }

  method GetClassesTreeInstrumented(klasses: seq<Klass>, instrumented: set<string>) returns (out: map<Name, seq<Klass>>)
    requires UniqueNames(klasses)
    ensures IsPruning(klasses, instrumented, out)
  {
    var tree := GetClassesTree(klasses);
    var pruning := new Pruning(klasses, tree, instrumented);
    pruning.Prune();
    out := pruning.out;
  }

  // ---- what the result is ----

  // Every subclass in the lists is a key; each key but the root is in the list of its superclass, which is a key as well.
  lemma PrunedTreeIsClosed(klasses: seq<Klass>, instrumented: set<string>, out: map<Name, seq<Klass>>)
    requires UniqueNames(klasses) && IsPruning(klasses, instrumented, out)
    ensures forall n, c :: n in out && c in out[n] ==> c.superclass == n && Class(c.classname) in out
    ensures forall c :: c in klasses && Class(c.classname) in out ==> c.superclass in out && c in out[c.superclass]
  {
    forall n, c | n in out && c in out[n] ensures c.superclass == n && Class(c.classname) in out {
      assert EntryIs(klasses, instrumented, out, n) && EntryIs(klasses, instrumented, out, Class(c.classname));
      KeptIff(klasses, instrumented, ChildrenOf(klasses, n), c);
    }
    forall c | c in klasses && Class(c.classname) in out ensures c.superclass in out && c in out[c.superclass] {
      assert EntryIs(klasses, instrumented, out, Class(c.classname)) && EntryIs(klasses, instrumented, out, c.superclass);
      ParentLives(klasses, instrumented, c);
      KeptIff(klasses, instrumented, ChildrenOf(klasses, c.superclass), c);
    }
  }

  // Pruning what was pruned changes nothing: a leaf has a provider.
  lemma LeavesHaveProviders(klasses: seq<Klass>, instrumented: set<string>, out: map<Name, seq<Klass>>, n: Name)
    requires UniqueNames(klasses) && IsPruning(klasses, instrumented, out) && n in out && out[n] == []
    ensures n.Class? && n.name in instrumented
  {
    assert EntryIs(klasses, instrumented, out, n);
    var path :| IsPath(klasses, path) && n in path && End(path).Class? && End(path).name in instrumented;
    var i :| 0 <= i < |path| && path[i] == n;
    if i < |path| - 1 {
      var below: Name := path[i + 1];
      assert IsStep(klasses, path[i + 1 - 1], below);
      var c := Klass(below.name, n);
      assert c in ChildrenOf(klasses, n) && Lives(klasses, instrumented, Class(c.classname));
      KeptIff(klasses, instrumented, ChildrenOf(klasses, n), c);
    }
  }
}
