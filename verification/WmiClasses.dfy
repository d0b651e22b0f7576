/** objtypes_wmi: the inheritance graph of the classes of a WMI namespace. */
module WmiClasses {
  // ---- derivations ----

  // The base classes of a class, the closest first, as the WMI server gives them.
  datatype Wmi = Wmi(derivation: string -> seq<string>)
  {
    ghost predicate Consistent()
    {
      forall c :: derivation(c) != [] ==> derivation(c)[1..] == derivation(derivation(c)[0])
    }
  }

  // What is drawn of a derivation: all of it, or what is below a class.
  function DrawnBases(wmi: Wmi, top: string, c: string): (r: seq<string>)
    ensures r <= wmi.derivation(c)
  {
    var bases := wmi.derivation(c);
    if top == "" then bases else bases[..IndexIn(bases, top)]
  }

  function IndexIn(names: seq<string>, name: string): (i: nat)
    ensures i <= |names|
    ensures forall k :: 0 <= k < i ==> names[k] != name
    ensures i < |names| ==> names[i] == name
  {
    if names == [] || names[0] == name then 0 else 1 + IndexIn(names[1..], name)
  }

  // The bases of the closest base are the other ones.
  ghost predicate IsChain(bases: string -> seq<string>)
  {
    forall c :: bases(c) != [] ==> bases(c)[1..] == bases(bases(c)[0])
  }

  lemma DrawnBasesAreAChain(wmi: Wmi, top: string)
    requires wmi.Consistent()
    ensures IsChain(c => DrawnBases(wmi, top, c))
  {
    var bases := c => DrawnBases(wmi, top, c);
    forall c | bases(c) != [] ensures bases(c)[1..] == bases(bases(c)[0]) {
      var all := wmi.derivation(c);
      assert bases(c)[0] == all[0];
      if top != "" {
        assert IndexIn(all, top) == 1 + IndexIn(all[1..], top);
      }
    }
  }

  lemma {:induction false} ChainAt(bases: string -> seq<string>, c: string, i: nat)
    requires IsChain(bases) && i < |bases(c)|
    ensures bases(bases(c)[i]) == bases(c)[i + 1..]
  {
    if i > 0 {
      ChainAt(bases, c, i - 1);
      var before := bases(c)[i - 1];
      assert bases(before) == bases(c)[i..];
      assert bases(before)[0] == bases(c)[i];
      assert bases(c)[i..][1..] == bases(c)[i + 1..];
    }
  }

  // A set of classes which has the bases of its classes.
  ghost predicate Closed(wmi: Wmi, names: set<string>)
  {
    forall c, b :: c in names && b in wmi.derivation(c) ==> b in names
  }

  function Names(s: seq<string>): set<string> { set n | n in s }

  lemma ClosedWithBases(wmi: Wmi, names: set<string>, c: string)
    requires wmi.Consistent() && Closed(wmi, names)
    ensures Closed(wmi, names + {c} + Names(wmi.derivation(c)))
  {
    var bases := wmi.derivation(c);
    forall d, b | d in names + {c} + Names(bases) && b in wmi.derivation(d) ensures b in names + {c} + Names(bases) {
      if d !in names && d != c {
        var i :| 0 <= i < |bases| && bases[i] == d;
        ChainAt(wmi.derivation, c, i);
      }
    }
  }

  lemma NamesStep(deriv: seq<string>, i: nat)
    requires i < |deriv|
    ensures Names(deriv[..i + 1]) == Names(deriv[..i]) + {deriv[i]}
  {
    assert deriv[..i + 1] == deriv[..i] + [deriv[i]];
  }

  // A base which is known already, while those before it were not, was known with its own bases.
  lemma StopAtKnownBase(wmi: Wmi, names: set<string>, c: string, i: nat)
    requires wmi.Consistent() && Closed(wmi, names) && i < |wmi.derivation(c)|
    requires wmi.derivation(c)[i] in names + {c} + Names(wmi.derivation(c)[..i])
    ensures names + {c} + Names(wmi.derivation(c)[..i]) == names + {c} + Names(wmi.derivation(c))
  {
    var bases := wmi.derivation(c);
    ChainAt(wmi.derivation, c, i);
    forall k | 0 <= k < i ensures bases[k] != bases[i] {
      ChainAt(wmi.derivation, c, k);
      assert |bases[k + 1..]| > |bases[i + 1..]|;
    }
    assert bases[i] != c;
    assert bases[i] in names;
    forall b | b in bases ensures b in bases[..i] || b in names {
      var k :| 0 <= k < |bases| && bases[k] == b;
      if k > i {
        assert b == bases[i + 1..][k - i - 1];
      }
    }
  }

  // ---- the cache of derivations ----

  class DerivationCache {
    const wmi: Wmi
    var cacheDerivations: map<string, seq<string>>

    // Every entry is right, and has the entries of its bases beside it.
    ghost predicate Valid()
      reads this
    {
      && (forall c :: c in cacheDerivations ==> cacheDerivations[c] == wmi.derivation(c))
      && Closed(wmi, cacheDerivations.Keys)
    }

    constructor (wmi: Wmi)
      ensures Valid() && this.wmi == wmi
    {
      this.wmi := wmi;
      cacheDerivations := map[];
    }

    // The loop may stop at a known base: the next ones are known as well.
    method GetDerivationWithCache(clsNam: string) returns (deriv: seq<string>)
      requires Valid() && wmi.Consistent()
      modifies this
      ensures Valid() && deriv == wmi.derivation(clsNam)
      ensures cacheDerivations.Keys == old(cacheDerivations.Keys) + {clsNam} + Names(deriv)
    {
      if clsNam in cacheDerivations {
        return cacheDerivations[clsNam];
      }
      deriv := wmi.derivation(clsNam);
      cacheDerivations := cacheDerivations[clsNam := deriv];
      var idx := 0;
      while idx < |deriv|
        invariant 0 <= idx <= |deriv|
        invariant forall c :: c in cacheDerivations ==> cacheDerivations[c] == wmi.derivation(c)
        invariant cacheDerivations.Keys == old(cacheDerivations.Keys) + {clsNam} + Names(deriv[..idx])
      {
        var loopClass := deriv[idx];
        ChainAt(wmi.derivation, clsNam, idx);
        if loopClass in cacheDerivations {
          StopAtKnownBase(wmi, old(cacheDerivations.Keys), clsNam, idx);
          break;
        }
        NamesStep(deriv, idx);
        cacheDerivations := cacheDerivations[loopClass := deriv[idx + 1..]];
        idx := idx + 1;
      }
      assert deriv[..|deriv|] == deriv;
      ClosedWithBases(wmi, old(cacheDerivations.Keys), clsNam);
    }
  }

  // ---- the drawing ----

  datatype Property = Subclass | InNamespace | Generalised

  datatype Triple = Triple(subj: string, property: Property, obj: string)

  // The URL of a class, of a class in its namespace, and of a class for any server.
  datatype Urls = Urls(ofClass: string -> string, inNamespace: string -> string, generalised: string -> string)

  // What is drawn below one class, or below the namespace if it is empty: the bases of a class are those below the top.
  datatype Tree = Tree(bases: string -> seq<string>, urls: Urls, top: string)
  {
    ghost predicate Consistent() { IsChain(bases) }

    lemma BasesAt(c: string, i: nat)
      requires Consistent() && i < |bases(c)|
      ensures bases(bases(c)[i]) == bases(c)[i + 1..]
    {
      ChainAt(bases, c, i);
    }

    // No class is twice in a chain.
    lemma BasesDiffer(c: string, i: nat, j: nat)
      requires Consistent() && i < j < |bases(c)|
      ensures bases(c)[i] != bases(c)[j] && bases(c)[i] != c && bases(c)[j] != c
    {
      BasesAt(c, i);
      BasesAt(c, j);
      assert |bases(c)[i + 1..]| != |bases(c)[j + 1..]|;
    }

    // From the closest base, or from the root.
    function EdgeTo(c: string): Triple
    {
      Triple(urls.ofClass(if bases(c) == [] then top else bases(c)[0]), Subclass, urls.ofClass(c))
    }

    function Info(c: string): set<Triple>
    {
      {Triple(urls.ofClass(c), InNamespace, urls.inNamespace(c)), Triple(urls.ofClass(c), Generalised, urls.generalised(c))}
    }

    // The edges down to some bases.
    function EdgesTo(names: seq<string>): set<Triple>
    {
      set n | n in names :: EdgeTo(n)
    }

    // All the bases but the last one, which hangs from the root.
    function Inner(c: string): seq<string>
    {
      if bases(c) == [] then [] else bases(c)[..|bases(c)| - 1]
    }

    // The whole chain of a class.
    function Chain(c: string): set<Triple>
    {
      EdgesTo([c] + Inner(c))
    }

    // The place of the first base which is known.
    function Known(names: seq<string>, done: set<string>): (i: nat)
      ensures i <= |names|
      ensures forall k :: 0 <= k < i ==> names[k] !in done
      ensures i < |names| ==> names[i] in done
    {
      if names == [] || names[0] in done then 0 else 1 + Known(names[1..], done)
    }

    // The chain up to the first known base.
    function Drawn(c: string, done: set<string>): set<Triple>
    {
      var i := Known(bases(c), done + {c});
      EdgesTo([c] + (if i < |bases(c)| then bases(c)[..i] else Inner(c)))
    }

    function Done(c: string, done: set<string>): set<string>
    {
      done + {c} + Names(bases(c)[..Known(bases(c), done + {c})])
    }

    // The edges of the classes already done are there, up to the root.
    ghost predicate DoneIsDrawn(graph: set<Triple>, done: set<string>)
    {
      forall d :: d in done && bases(d) != [] ==> EdgeTo(d) in graph && bases(d)[0] in done
    }

    lemma {:induction false} BaseIsDrawn(graph: set<Triple>, done: set<string>, d: string, i: nat)
      requires Consistent() && DoneIsDrawn(graph, done) && d in done && i < |bases(d)|
      ensures bases(d)[i] in done
      ensures i < |bases(d)| - 1 ==> EdgeTo(bases(d)[i]) in graph
    {
      if i > 0 {
        BaseIsDrawn(graph, done, d, i - 1);
        BasesAt(d, i - 1);
        assert bases(d)[i - 1] in done;
      }
      BasesAt(d, i);
    }

    lemma DoneStaysDrawn(graph: set<Triple>, done: set<string>, c: string)
      requires Consistent() && DoneIsDrawn(graph, done)
      ensures DoneIsDrawn(graph + Drawn(c, done), Done(c, done))
    {
      var i := Known(bases(c), done + {c});
      forall d | d in Done(c, done) && bases(d) != []
        ensures EdgeTo(d) in graph + Drawn(c, done) && bases(d)[0] in Done(c, done)
      {
        if d == c {
          assert i > 0 ==> bases(c)[0] in bases(c)[..i];
        } else if d !in done {
          var k :| 0 <= k < i && bases(c)[k] == d;
          BasesAt(c, k);
          assert i < |bases(c)| ==> d in bases(c)[..i];
          assert i == |bases(c)| ==> d in Inner(c);
          assert k + 1 < i ==> bases(c)[k + 1] in bases(c)[..i];
        }
      }
    }

    lemma KnownIsDone(done: set<string>, c: string)
      requires Consistent() && Known(bases(c), done + {c}) < |bases(c)| - 1
      ensures bases(c)[Known(bases(c), done + {c})] in done
    {
      BasesDiffer(c, Known(bases(c), done + {c}), |bases(c)| - 1);
    }

    lemma RestIsDrawn(graph: set<Triple>, done: set<string>, c: string, k: nat)
      requires Consistent() && DoneIsDrawn(graph, done)
      requires Known(bases(c), done + {c}) <= k < |bases(c)| - 1
      ensures EdgeTo(bases(c)[k]) in graph
    {
      var i := Known(bases(c), done + {c});
      KnownIsDone(done, c);
      BasesAt(c, i);
      var above, n := bases(c)[i + 1..], k - i;
      assert n > 0 ==> above[n - 1] == bases(c)[k];
      DoneBaseIsDrawn(graph, done, bases(c)[i], above, bases(c)[k], n);
    }

    // A class which is done, or the n-th of its bases.
    lemma DoneBaseIsDrawn(graph: set<Triple>, done: set<string>, base: string, above: seq<string>, n: string, i: nat)
      requires Consistent() && DoneIsDrawn(graph, done) && base in done && bases(base) == above && i < |above|
      requires n == if i == 0 then base else above[i - 1]
      ensures EdgeTo(n) in graph
    {
      if i > 0 {
        BaseIsDrawn(graph, done, base, i - 1);
      }
    }

    // Stopping at a known base loses nothing: what is above it was drawn before.
    lemma StopLosesNothing(graph: set<Triple>, done: set<string>, c: string)
      requires Consistent() && DoneIsDrawn(graph, done)
      ensures graph + Drawn(c, done) == graph + Chain(c)
    {
      DrawnIsInChain(c, done);
      ChainIsDrawn(graph, done, c);
    }

    lemma ChainIsDrawn(graph: set<Triple>, done: set<string>, c: string)
      requires Consistent() && DoneIsDrawn(graph, done)
      ensures Chain(c) <= graph + Drawn(c, done)
    {
      DrawnIsInChain(c, done);
      forall n | n in Inner(c) ensures EdgeTo(n) in graph + Drawn(c, done) {
        var k :| 0 <= k < |Inner(c)| && Inner(c)[k] == n;
        InnerIsDrawn(graph, done, c, k);
      }
    }

    lemma InnerIsDrawn(graph: set<Triple>, done: set<string>, c: string, k: nat)
      requires Consistent() && DoneIsDrawn(graph, done) && k < |bases(c)| - 1
      ensures EdgeTo(bases(c)[k]) in graph + Drawn(c, done)
    {
      var i := Known(bases(c), done + {c});
      if k >= i {
        RestIsDrawn(graph, done, c, k);
      } else if i < |bases(c)| {
        assert bases(c)[..i][k] == bases(c)[k];
      } else {
        assert Inner(c)[k] == bases(c)[k];
      }
    }

    lemma DrawnIsInChain(c: string, done: set<string>)
      ensures EdgeTo(c) in Drawn(c, done) && Drawn(c, done) <= Chain(c)
    {
    }

    // ---- all the classes ----

    predicate Selected(c: string, maxDepth: int) { |bases(c)| < maxDepth }

    function Infos(classes: seq<string>, maxDepth: int): set<Triple>
    {
      set c, t | c in classes && Selected(c, maxDepth) && t in Info(c) :: t
    }

    // What is drawn for each class on its own.
    function AllChains(classes: seq<string>, maxDepth: int): set<Triple>
    {
      set c, t | c in classes && Selected(c, maxDepth) && t in Chain(c) :: t
    }

    // One edge for each class.
    function AllEdges(classes: seq<string>, maxDepth: int): set<Triple>
    {
      set c | c in classes && Selected(c, maxDepth) :: EdgeTo(c)
    }

    // The bases of the classes are among them.
    ghost predicate HasAllBases(classes: seq<string>)
    {
      forall c, b :: c in classes && b in bases(c) ==> b in classes
    }

    // Then the chains have nothing more than one edge for each class.
    lemma ChainsAreEdges(classes: seq<string>, maxDepth: int)
      requires Consistent() && HasAllBases(classes)
      ensures AllChains(classes, maxDepth) == AllEdges(classes, maxDepth)
    {
      forall c, t | c in classes && Selected(c, maxDepth) && t in Chain(c) ensures t in AllEdges(classes, maxDepth) {
        var n :| n in [c] + Inner(c) && t == EdgeTo(n);
        if n != c {
          var k :| 0 <= k < |bases(c)| - 1 && bases(c)[k] == n;
          BasesAt(c, k);
          assert n in bases(c) && Selected(n, maxDepth);
        }
      }
      forall c | c in classes && Selected(c, maxDepth) ensures EdgeTo(c) in AllChains(classes, maxDepth) {
        assert c in [c] + Inner(c);
        assert EdgeTo(c) in Chain(c);
      }
    }

    // What a run over some classes gives: each edge to a class is drawn, and nothing out of the chains;
    // if what was done before is drawn, the whole chains are.
    ghost predicate IsDrawing(classes: seq<string>, maxDepth: int, before: set<Triple>, doneBefore: set<string>, after: set<Triple>, doneAfter: set<string>)
    {
      && before + Infos(classes, maxDepth) + AllEdges(classes, maxDepth) <= after
      && after <= before + Infos(classes, maxDepth) + AllChains(classes, maxDepth)
      && (DoneIsDrawn(before, doneBefore) ==>
            DoneIsDrawn(after, doneAfter) && AllChains(classes, maxDepth) <= after)
    }

    // Main result: when the bases of all classes are listed, in any order and whatever was done before,
    // there is one edge to each class of a small depth: from its base, or else from the root.
    lemma EdgesAreExact(classes: seq<string>, maxDepth: int, before: set<Triple>, doneBefore: set<string>, after: set<Triple>, doneAfter: set<string>)
      requires Consistent() && HasAllBases(classes)
      requires IsDrawing(classes, maxDepth, before, doneBefore, after, doneAfter)
      ensures after == before + Infos(classes, maxDepth) + AllEdges(classes, maxDepth)
    {
      ChainsAreEdges(classes, maxDepth);
    }

    // When some bases are missing, the result is the same as with no early stop, if nothing was done before.
    lemma ChainsAreWhole(classes: seq<string>, maxDepth: int, before: set<Triple>, after: set<Triple>, doneAfter: set<string>)
      requires IsDrawing(classes, maxDepth, before, {}, after, doneAfter)
      ensures after == before + Infos(classes, maxDepth) + AllChains(classes, maxDepth)
    {
    }

    lemma ChainsGrow(classes: seq<string>, c: string, maxDepth: int)
      ensures Infos(classes + [c], maxDepth) == Infos(classes, maxDepth) + (if Selected(c, maxDepth) then Info(c) else {})
      ensures AllEdges(classes + [c], maxDepth) == AllEdges(classes, maxDepth) + (if Selected(c, maxDepth) then {EdgeTo(c)} else {})
      ensures AllChains(classes + [c], maxDepth) == AllChains(classes, maxDepth) + (if Selected(c, maxDepth) then Chain(c) else {})
    {
      var more := classes + [c];
      assert forall d :: d in more <==> d in classes || d == c;
    }

    lemma OneMoreClass(classes: seq<string>, c: string, maxDepth: int, g0: set<Triple>, done0: set<string>, g: set<Triple>, done: set<string>)
      requires Consistent() && Selected(c, maxDepth) && IsDrawing(classes, maxDepth, g0, done0, g, done)
      ensures IsDrawing(classes + [c], maxDepth, g0, done0, g + Info(c) + Drawn(c, done), Done(c, done))
    {
      ChainsGrow(classes, c, maxDepth);
      DrawnIsInChain(c, done);
      if DoneIsDrawn(g0, done0) {
        assert DoneIsDrawn(g + Info(c), done);
        StopLosesNothing(g + Info(c), done, c);
        DoneStaysDrawn(g + Info(c), done, c);
      }
    }

    lemma OneClassLess(classes: seq<string>, c: string, maxDepth: int, g0: set<Triple>, done0: set<string>, g: set<Triple>, done: set<string>)
      requires !Selected(c, maxDepth) && IsDrawing(classes, maxDepth, g0, done0, g, done)
      ensures IsDrawing(classes + [c], maxDepth, g0, done0, g, done)
    {
      ChainsGrow(classes, c, maxDepth);
    }

    // What is about the class at the top.
    function Heading(wmi: Wmi): set<Triple>
    {
      var above := wmi.derivation(top);
      {Triple(urls.ofClass(top), Generalised, urls.generalised(top))}
      + (if top == "" then {} else {Triple(urls.inNamespace(if above == [] then "" else above[0]), Subclass, urls.ofClass(top))})
    }

    // ---- the climb ----

    function Stop(c: string, done: set<string>): nat { Known(bases(c), done + {c}) }

    // The class, then its bases.
    function Nth(c: string, i: nat): string
      requires i <= |bases(c)|
    {
      if i == 0 then c else bases(c)[i - 1]
    }

    function Climbed(c: string, i: nat): set<Triple>
      requires i <= |bases(c)|
    {
      if i == 0 then {} else EdgesTo([c] + bases(c)[..i - 1])
    }

    lemma ClimbStep(c: string, i: nat)
      requires Consistent() && i < |bases(c)|
      ensures Climbed(c, i + 1) == Climbed(c, i) + {Triple(urls.ofClass(bases(c)[i]), Subclass, urls.ofClass(Nth(c, i)))}
      ensures Nth(c, i + 1) == bases(c)[i]
      ensures Names(bases(c)[..i + 1]) == Names(bases(c)[..i]) + {bases(c)[i]}
    {
      assert bases(c)[..i + 1] == bases(c)[..i] + [bases(c)[i]];
      if i == 0 {
        assert [c] + bases(c)[..0] == [c];
        assert EdgesTo([c]) == {EdgeTo(c)};
      } else {
        BasesAt(c, i - 1);
        assert [c] + bases(c)[..i] == [c] + bases(c)[..i - 1] + [bases(c)[i - 1]];
        EdgesToMore([c] + bases(c)[..i - 1], bases(c)[i - 1]);
      }
    }

    lemma EdgesToMore(names: seq<string>, n: string)
      ensures EdgesTo(names + [n]) == EdgesTo(names) + {EdgeTo(n)}
    {
      assert forall m :: m in names + [n] <==> m in names || m == n;
    }

    // What one turn of the climb adds, and when it is the last one.
    lemma Turn(c: string, done: set<string>, before: set<Triple>, i: nat)
      requires Consistent() && c in done && i < |bases(c)| && i <= Stop(c, done)
      ensures before + Climbed(c, i + 1) == before + Climbed(c, i) + {Triple(urls.ofClass(bases(c)[i]), Subclass, urls.ofClass(Nth(c, i)))}
      ensures done + Names(bases(c)[..i + 1]) == done + Names(bases(c)[..i]) + {bases(c)[i]}
      ensures bases(c)[i] in done + Names(bases(c)[..i]) <==> i == Stop(c, done)
    {
      ClimbStep(c, i);
      StopIs(c, done, i);
    }

    lemma StopIs(c: string, done: set<string>, i: nat)
      requires Consistent() && c in done && i < |bases(c)| && i <= Stop(c, done)
      ensures bases(c)[i] in done + Names(bases(c)[..i]) <==> i == Stop(c, done)
    {
      forall k | 0 <= k < i ensures bases(c)[k] != bases(c)[i] {
        BasesDiffer(c, k, i);
      }
      assert done + {c} == done;
    }

    lemma DrawnIsClimbed(c: string, done: set<string>)
      requires c in done && bases(c) != []
      ensures
        var i := Stop(c, done);
        && Drawn(c, done) == Climbed(c, if i < |bases(c)| then i + 1 else i)
        && Done(c, done) == done + Names(bases(c)[..i])
    {
    }

    lemma DrawnAgain(c: string, done: set<string>)
      ensures Drawn(c, done + {c}) == Drawn(c, done) && Done(c, done + {c}) == Done(c, done)
      ensures bases(c) == [] ==> Drawn(c, done) == {EdgeTo(c)} && Done(c, done) == done + {c}
    {
      assert done + {c} + {c} == done + {c};
      assert [c] + [] == [c];
    }
  }

  class Drawing {
    const wmi: Wmi
    const tree: Tree
    var dictClassToNode: map<string, string>
    var doneNode: set<string>
    var graph: set<Triple>

    ghost predicate Valid()
      reads this`dictClassToNode
    {
      && tree.Consistent()
      && (forall c :: tree.bases(c) == DrawnBases(wmi, tree.top, c))
      && (forall c :: c in dictClassToNode ==> dictClassToNode[c] == tree.urls.ofClass(c))
    }

    // The classes which are already done, by this process, are given.
    constructor (wmi: Wmi, urls: Urls, top: string, doneNode: set<string>, graph: set<Triple>)
      requires wmi.Consistent()
      ensures Valid() && tree.top == top && tree.urls == urls
      ensures this.wmi == wmi && this.doneNode == doneNode && this.graph == graph
    {
      this.wmi := wmi;
      DrawnBasesAreAChain(wmi, top);
      tree := Tree(c => DrawnBases(wmi, top, c), urls, top);
      dictClassToNode := map[];
      this.doneNode := doneNode;
      this.graph := graph;
    }

    // A node is created once only.
    method ClassToNode(clsNam: string) returns (node: string)
      requires Valid()
      modifies this`dictClassToNode
      ensures Valid() && node == tree.urls.ofClass(clsNam)
      ensures dictClassToNode.Keys == old(dictClassToNode.Keys) + {clsNam}
    {
      if clsNam in dictClassToNode {
        return dictClassToNode[clsNam];
      }
      node := tree.urls.ofClass(clsNam);
      dictClassToNode := dictClassToNode[clsNam := node];
    }

    // From a class up to the first base which is already done.
    method Climb(clsNam: string, wmiNode: string, clsDeriv: seq<string>)
      requires Valid() && clsDeriv == tree.bases(clsNam) && clsDeriv != [] && clsNam in doneNode && wmiNode == tree.urls.ofClass(clsNam)
      modifies this
      ensures Valid() && graph == old(graph) + tree.Drawn(clsNam, old(doneNode))
      ensures doneNode == tree.Done(clsNam, old(doneNode))
    {
      ghost var done := doneNode;
      var previousNode := wmiNode;
      var i := 0;
      while i < |clsDeriv|
        invariant 0 <= i <= tree.Stop(clsNam, done) && Valid()
        invariant previousNode == tree.urls.ofClass(tree.Nth(clsNam, i))
        invariant graph == old(graph) + tree.Climbed(clsNam, i)
        invariant doneNode == done + Names(clsDeriv[..i])
      {
        var wmiBaseNode := ClassToNode(clsDeriv[i]);
        graph := graph + {Triple(wmiBaseNode, Subclass, previousNode)};
        tree.Turn(clsNam, done, old(graph), i);
        previousNode := wmiBaseNode;
        if clsDeriv[i] in doneNode {
          break;
        }
        doneNode := doneNode + {clsDeriv[i]};
        i := i + 1;
      }
      tree.DrawnIsClimbed(clsNam, done);
    }

    method DrawFromThisBase(rootNode: string, clsNam: string, clsDeriv: seq<string>)
      requires Valid() && clsDeriv == tree.bases(clsNam) && rootNode == tree.urls.ofClass(tree.top)
      modifies this
      ensures Valid() && graph == old(graph) + tree.Info(clsNam) + tree.Drawn(clsNam, old(doneNode))
      ensures doneNode == tree.Done(clsNam, old(doneNode))
    {
      var wmiNode := ClassToNode(clsNam);
      graph := graph + {Triple(wmiNode, InNamespace, tree.urls.inNamespace(clsNam))};
      graph := graph + {Triple(wmiNode, Generalised, tree.urls.generalised(clsNam))};
      assert graph == old(graph) + tree.Info(clsNam);
      doneNode := doneNode + {clsNam};
      tree.DrawnAgain(clsNam, old(doneNode));
      if |clsDeriv| == 0 {
        graph := graph + {Triple(rootNode, Subclass, wmiNode)};
      } else {
        Climb(clsNam, wmiNode, clsDeriv);
      }
    }

    // The loop over the classes of the server, or over the subclasses of one class.
    method DrawClasses(rootNode: string, classes: seq<string>, maxDepth: int)
      requires Valid() && rootNode == tree.urls.ofClass(tree.top)
      requires tree.top != "" ==> forall c :: c in classes ==> tree.top in wmi.derivation(c)
      modifies this
      ensures Valid() && tree.IsDrawing(classes, maxDepth, old(graph), old(doneNode), graph, doneNode)
      ensures old(doneNode) == {} ==> graph == old(graph) + tree.Infos(classes, maxDepth) + tree.AllChains(classes, maxDepth)
    {
      for i := 0 to |classes|
        invariant Valid() && tree.IsDrawing(classes[..i], maxDepth, old(graph), old(doneNode), graph, doneNode)
      {
        assert classes[..i + 1] == classes[..i] + [classes[i]];
        DrawClass(rootNode, classes[i], maxDepth, classes[..i], old(graph), old(doneNode));
      }
      assert classes[..|classes|] == classes;
      if old(doneNode) == {} {
        tree.ChainsAreWhole(classes, maxDepth, old(graph), graph, doneNode);
      }
    }

    // One turn of the loop, after some classes.
    method DrawClass(rootNode: string, clsNam: string, maxDepth: int, ghost classes: seq<string>, ghost g0: set<Triple>, ghost done0: set<string>)
      requires Valid() && rootNode == tree.urls.ofClass(tree.top)
      requires tree.top != "" ==> tree.top in wmi.derivation(clsNam)
      requires tree.IsDrawing(classes, maxDepth, g0, done0, graph, doneNode)
      modifies this
      ensures Valid() && tree.IsDrawing(classes + [clsNam], maxDepth, g0, done0, graph, doneNode)
    {
      var clsDeriv := wmi.derivation(clsNam);
      var isSelected, bases := SelectClass(clsNam, clsDeriv, maxDepth);
      if isSelected {
        tree.OneMoreClass(classes, clsNam, maxDepth, g0, done0, graph, doneNode);
        DrawFromThisBase(rootNode, clsNam, bases);
      } else {
        tree.OneClassLess(classes, clsNam, maxDepth, g0, done0, graph, doneNode);
      }
    }

    // The depth of a class is counted from the class which is drawn.
    method SelectClass(clsNam: string, clsDeriv: seq<string>, maxDepth: int) returns (isSelected: bool, bases: seq<string>)
      requires Valid() && clsDeriv == wmi.derivation(clsNam) && (tree.top != "" ==> tree.top in clsDeriv)
      ensures isSelected <==> tree.Selected(clsNam, maxDepth)
      ensures bases == tree.bases(clsNam)
    {
      if tree.top == "" {
        return |clsDeriv| < maxDepth, clsDeriv;
      }
      var idxClass := IndexIn(clsDeriv, tree.top);
      var invertIdx := |clsDeriv| - idxClass;
      return |clsDeriv| < maxDepth + invertIdx, clsDeriv[..idxClass];
    }

    // The whole page.
    method DrawPage(classes: seq<string>, maxDepth: int)
      requires Valid() && tree.HasAllBases(classes)
      requires tree.top != "" ==> forall c :: c in classes ==> tree.top in wmi.derivation(c)
      modifies this
      ensures Valid()
      ensures graph == old(graph) + tree.Heading(wmi) + tree.Infos(classes, maxDepth) + tree.AllEdges(classes, maxDepth)
    {
      var rootNode := ClassToNode(tree.top);
      graph := graph + {Triple(rootNode, Generalised, tree.urls.generalised(tree.top))};
      if tree.top != "" {
        dictClassToNode := dictClassToNode[tree.top := rootNode];
        var topClsDeriv := wmi.derivation(tree.top);
        var topNode := tree.urls.inNamespace(if |topClsDeriv| == 0 then "" else topClsDeriv[0]);
        graph := graph + {Triple(topNode, Subclass, rootNode)};
      }
      assert graph == old(graph) + tree.Heading(wmi);
      ghost var g0, done0 := graph, doneNode;
      DrawClasses(rootNode, classes, maxDepth);
      tree.EdgesAreExact(classes, maxDepth, g0, done0, graph, doneNode);
    }
  }
}
