/** All the files of the events together: over any run, what is stored, delivered and pending. */
module EventTotals {
  import opened Text
  import opened Collections
  import opened Events

  // ---- sums over files ----

  function Summed(paths: seq<Path>, f: Path -> seq<Event>): multiset<Event>
  {
    if paths == [] then multiset{} else Summed(paths[..|paths| - 1], f) + multiset(f(paths[|paths| - 1]))
  }

  function Except(f: Path -> seq<Event>, x: Path): Path -> seq<Event>
  {
    p => if p == x then [] else f(p)
  }

  ghost predicate Covers(paths: seq<Path>, f: Path -> seq<Event>)
  {
    NoDup(paths) && forall p :: f(p) != [] ==> p in paths
  }

  lemma {:induction false} SummedSame(paths: seq<Path>, f: Path -> seq<Event>, g: Path -> seq<Event>)
    requires forall p :: p in paths ==> f(p) == g(p)
    ensures Summed(paths, f) == Summed(paths, g)
  {
    if paths != [] {
      LastOrBefore(paths);
      SummedSame(paths[..|paths| - 1], f, g);
    }
  }

  lemma {:induction false} TakeOut(paths: seq<Path>, f: Path -> seq<Event>, x: Path)
    requires NoDup(paths)
    ensures Summed(paths, f) == Summed(paths, Except(f, x)) + if x in paths then multiset(f(x)) else multiset{}
  {
    if paths != [] {
      LastOrBefore(paths);
      TakeOut(paths[..|paths| - 1], f, x);
    }
  }

  // The sum does not depend on the order of the files, nor on those which have nothing.
  lemma {:induction false} SummedOnce(paths: seq<Path>, others: seq<Path>, f: Path -> seq<Event>)
    requires Covers(paths, f) && Covers(others, f)
    ensures Summed(paths, f) == Summed(others, f)
  {
    if paths == [] {
      SummedNothing(others, f);
    } else {
      var x, rest := paths[|paths| - 1], paths[..|paths| - 1];
      LastOrBefore(paths);
      assert x !in rest;
      TakeOut(others, f, x);
      SummedSame(rest, f, Except(f, x));
      SummedOnce(rest, others, Except(f, x));
    }
  }

  lemma {:induction false} SummedNothing(paths: seq<Path>, f: Path -> seq<Event>)
    requires forall p :: p in paths ==> f(p) == []
    ensures Summed(paths, f) == multiset{}
  {
    if paths != [] {
      SummedNothing(paths[..|paths| - 1], f);
    }
  }

  lemma {:induction false} SummedPlus(paths: seq<Path>, f: Path -> seq<Event>, g: Path -> seq<Event>, sum: Path -> seq<Event>)
    requires forall p :: p in paths ==> sum(p) == f(p) + g(p)
    ensures Summed(paths, sum) == Summed(paths, f) + Summed(paths, g)
  {
    if paths != [] {
      LastOrBefore(paths);
      SummedPlus(paths[..|paths| - 1], f, g, sum);
    }
  }

  // ---- what a run makes of all the files ----

  function Stored(ontology: Ontology, ops: seq<Op>): Path -> seq<Event> { p => After(ontology, ops, p).stored }

  function Given(ontology: Ontology, ops: seq<Op>): Path -> seq<Event> { p => After(ontology, ops, p).delivered }

  function Held(ontology: Ontology, ops: seq<Op>): Path -> seq<Event> { p => After(ontology, ops, p).pending }

  function GivenBy(ontology: Ontology, ops: seq<Op>): Path -> seq<Event> { p => ontology.Delivered(After(ontology, ops, p).pending) }

  function CopiesOf(ontology: Ontology, e: Event): Path -> seq<Event> { p => ontology.Copies(e, p) }

  // The files in which an event is stored: the one of its subject, then the one of its object.
  function FilesOf(ontology: Ontology, e: Event): nat
  {
    if e.subj.None? || !ontology.IsEntity(e.subj.value) then 0
    else if e.obj.Some? && ontology.IsEntity(e.obj.value) then 2 else 1
  }

  // Each event, as many times as it was stored.
  function AllStored(ontology: Ontology, ops: seq<Op>): multiset<Event>
  {
    if ops == [] then multiset{}
    else
      AllStored(ontology, ops[..|ops| - 1]) +
      match ops[|ops| - 1]
      case Put(e) => multiset{}[e := FilesOf(ontology, e)]
      case Get => multiset{}
  }

  function Concat(outs: seq<seq<Event>>): seq<Event>
  {
    if outs == [] then [] else Concat(outs[..|outs| - 1]) + outs[|outs| - 1]
  }

  // What EventStore.Run ensures of its results.
  ghost predicate IsRun(ontology: Ontology, ops: seq<Op>, orders: seq<seq<Path>>, outs: seq<seq<Event>>)
  {
    && |outs| == |orders| == |ops|
    && forall i :: 0 <= i < |ops| ==> IsStep(ontology, ops[..i], ops[i], orders[i], outs[i])
  }

  // ---- an event has its copies ----

  lemma {:induction false} SummedOne(paths: seq<Path>, x: Path, e: Event)
    requires NoDup(paths)
    ensures Summed(paths, (p: Path) => if p == x then [e] else []) == if x in paths then multiset{e} else multiset{}
  {
    if paths != [] {
      LastOrBefore(paths);
      SummedOne(paths[..|paths| - 1], x, e);
    }
  }

  function PartOf(ontology: Ontology, part: Option<Json>, e: Event): Path -> seq<Event> { p => ontology.LinesFor(part, e, p) }

  lemma SummedPart(ontology: Ontology, part: Option<Json>, e: Event, paths: seq<Path>)
    requires NoDup(paths) && (part.Some? && ontology.IsEntity(part.value) ==> ontology.FileOf(part.value) in paths)
    ensures Summed(paths, PartOf(ontology, part, e)) == if part.Some? && ontology.IsEntity(part.value) then multiset{e} else multiset{}
  {
    var lines := PartOf(ontology, part, e);
    if part.Some? && ontology.IsEntity(part.value) {
      var x := ontology.FileOf(part.value);
      SummedOne(paths, x, e);
      SummedSame(paths, lines, (p: Path) => if p == x then [e] else []);
    } else {
      SummedNothing(paths, lines);
    }
  }

  lemma SummedCopies(ontology: Ontology, e: Event, paths: seq<Path>)
    requires Covers(paths, CopiesOf(ontology, e))
    ensures Summed(paths, CopiesOf(ontology, e)) == multiset{}[e := FilesOf(ontology, e)]
  {
    var copies := CopiesOf(ontology, e);
    if e.subj.None? || !ontology.IsEntity(e.subj.value) {
      SummedNothing(paths, copies);
    } else {
      assert copies(ontology.FileOf(e.subj.value)) != [];
      assert e.obj.Some? && ontology.IsEntity(e.obj.value) ==> copies(ontology.FileOf(e.obj.value)) != [];
      SummedPlus(paths, PartOf(ontology, e.subj, e), PartOf(ontology, e.obj, e), copies);
      SummedPart(ontology, e.subj, e, paths);
      SummedPart(ontology, e.obj, e, paths);
    }
  }

  // ---- the sums over a run ----

  lemma CoversBefore(ontology: Ontology, ops: seq<Op>, paths: seq<Path>)
    requires ops != [] && Covers(paths, Stored(ontology, ops))
    ensures Covers(paths, Stored(ontology, ops[..|ops| - 1]))
    ensures ops[|ops| - 1].Put? ==> Covers(paths, CopiesOf(ontology, ops[|ops| - 1].event))
  {
    var before, now := Stored(ontology, ops[..|ops| - 1]), Stored(ontology, ops);
    forall p | before(p) != [] ensures p in paths {
      assert now(p) != [];
    }
    if ops[|ops| - 1].Put? {
      forall p | ontology.Copies(ops[|ops| - 1].event, p) != [] ensures p in paths {
        assert now(p) != [];
      }
    }
  }

  // A file where nothing was stored has nothing, and gave nothing.
  lemma NothingStored(ontology: Ontology, ops: seq<Op>, p: Path)
    requires After(ontology, ops, p).stored == []
    ensures After(ontology, ops, p) == History([], [], []) && NeverBlockedLate(ontology, ops, p)
  {
    CompleteNeverBlocks(ontology, ops, p);
    Conservation(ontology, ops, p);
  }

  lemma {:induction false} StoredIs(ontology: Ontology, ops: seq<Op>, paths: seq<Path>)
    requires Covers(paths, Stored(ontology, ops))
    ensures Summed(paths, Stored(ontology, ops)) == AllStored(ontology, ops)
  {
    if ops == [] {
      SummedNothing(paths, Stored(ontology, ops));
    } else {
      var before, last := ops[..|ops| - 1], ops[|ops| - 1];
      CoversBefore(ontology, ops, paths);
      StoredIs(ontology, before, paths);
      if last.Put? {
        SummedCopies(ontology, last.event, paths);
        SummedPlus(paths, Stored(ontology, before), CopiesOf(ontology, last.event), Stored(ontology, ops));
      } else {
        SummedSame(paths, Stored(ontology, before), Stored(ontology, ops));
      }
    }
  }

  lemma {:induction false} AllGivenIs(ontology: Ontology, ops: seq<Op>, order: seq<Path>)
    ensures multiset(AllGiven(ontology, ops, order)) == Summed(order, GivenBy(ontology, ops))
  {
    if order != [] {
      AllGivenIs(ontology, ops, order[..|order| - 1]);
    }
  }

  lemma {:induction false} GivenIs(ontology: Ontology, ops: seq<Op>, orders: seq<seq<Path>>, outs: seq<seq<Event>>, paths: seq<Path>)
    requires IsRun(ontology, ops, orders, outs) && Covers(paths, Stored(ontology, ops))
    ensures multiset(Concat(outs)) == Summed(paths, Given(ontology, ops))
  {
    if ops == [] {
      SummedNothing(paths, Given(ontology, ops));
    } else {
      var n := |ops| - 1;
      RunBefore(ontology, ops, orders, outs);
      CoversBefore(ontology, ops, paths);
      GivenIs(ontology, ops[..n], orders[..n], outs[..n], paths);
      if ops[n].Put? {
        SummedSame(paths, Given(ontology, ops[..n]), Given(ontology, ops));
      } else {
        OneRetrieval(ontology, ops[..n], orders[n], outs[n], paths);
        SummedPlus(paths, Given(ontology, ops[..n]), GivenBy(ontology, ops[..n]), Given(ontology, ops));
      }
    }
  }

  lemma RunBefore(ontology: Ontology, ops: seq<Op>, orders: seq<seq<Path>>, outs: seq<seq<Event>>)
    requires ops != [] && IsRun(ontology, ops, orders, outs)
    ensures IsRun(ontology, ops[..|ops| - 1], orders[..|ops| - 1], outs[..|ops| - 1])
  {
    var n := |ops| - 1;
    forall i | 0 <= i < n ensures IsStep(ontology, ops[..n][..i], ops[i], orders[i], outs[i]) {
      assert ops[..n][..i] == ops[..i];
    }
  }

  // Any order of the files gives the same lines.
  lemma OneRetrieval(ontology: Ontology, ops: seq<Op>, order: seq<Path>, out: seq<Event>, paths: seq<Path>)
    requires IsRetrieval(ontology, ops, order, out) && Covers(paths, Stored(ontology, ops))
    ensures multiset(out) == Summed(paths, GivenBy(ontology, ops))
  {
    var given := GivenBy(ontology, ops);
    AllGivenIs(ontology, ops, order);
    forall p | given(p) != [] ensures p in order && p in paths {
      if After(ontology, ops, p).stored == [] {
        NothingStored(ontology, ops, p);
      }
      assert ontology.AllComplete([]);
      assert Stored(ontology, ops)(p) != [];
    }
    SummedOnce(order, paths, given);
  }

  // ---- the whole store ----

  lemma {:induction false} SummedExcess(ontology: Ontology, ops: seq<Op>, paths: seq<Path>)
    ensures
      var stored, all := Summed(paths, Stored(ontology, ops)), Summed(paths, Given(ontology, ops)) + Summed(paths, Held(ontology, ops));
      && stored <= all
      && (stored == all <==> forall p :: p in paths ==> NeverBlockedLate(ontology, ops, p))
  {
    if paths != [] {
      var p, before := paths[|paths| - 1], paths[..|paths| - 1];
      LastOrBefore(paths);
      SummedExcess(ontology, ops, before);
      KeptIff(ontology, ops, p);
      var h := After(ontology, ops, p);
      SumsEqual(Summed(before, Stored(ontology, ops)), Summed(before, Given(ontology, ops)) + Summed(before, Held(ontology, ops)),
        multiset(h.stored), multiset(h.delivered) + multiset(h.pending));
    }
  }

  lemma KeptIff(ontology: Ontology, ops: seq<Op>, p: Path)
    ensures
      var h := After(ontology, ops, p);
      && multiset(h.stored) <= multiset(h.delivered) + multiset(h.pending)
      && (multiset(h.stored) == multiset(h.delivered) + multiset(h.pending) <==> NeverBlockedLate(ontology, ops, p))
  {
    Conservation(ontology, ops, p);
    var h := After(ontology, ops, p);
    assert multiset(h.delivered + h.pending) == multiset(h.delivered) + multiset(h.pending);
    assert |multiset(h.delivered + h.pending)| == |h.delivered| + |h.pending| && |multiset(h.stored)| == |h.stored|;
  }

  lemma SumsEqual(a: multiset<Event>, b: multiset<Event>, c: multiset<Event>, d: multiset<Event>)
    requires a <= b && c <= d
    ensures a + c <= b + d && (a + c == b + d <==> a == b && c == d)
  {
    if a + c == b + d {
      forall x ensures a[x] == b[x] && c[x] == d[x] {
        assert (a + c)[x] == a[x] + c[x] && (b + d)[x] == b[x] + d[x];
      }
    }
  }

  // ---- the files which were written ----

  function WithFile(ontology: Ontology, paths: seq<Path>, part: Option<Json>): (r: seq<Path>)
    ensures NoDup(paths) ==> NoDup(r)
    ensures forall p :: p in r <==> p in paths || (part.Some? && ontology.IsEntity(part.value) && p == ontology.FileOf(part.value))
  {
    if part.None? || !ontology.IsEntity(part.value) || ontology.FileOf(part.value) in paths then paths
    else paths + [ontology.FileOf(part.value)]
  }

  function StoredPaths(ontology: Ontology, ops: seq<Op>): seq<Path>
  {
    if ops == [] then []
    else
      var before := StoredPaths(ontology, ops[..|ops| - 1]);
      match ops[|ops| - 1]
      case Put(e) => WithFile(ontology, WithFile(ontology, before, e.subj), e.obj)
      case Get => before
  }

  lemma {:induction false} StoredPathsCover(ontology: Ontology, ops: seq<Op>)
    ensures Covers(StoredPaths(ontology, ops), Stored(ontology, ops))
  {
    if ops != [] {
      var before := ops[..|ops| - 1];
      StoredPathsCover(ontology, before);
      forall p | Stored(ontology, ops)(p) != [] ensures p in StoredPaths(ontology, ops) {
        assert Stored(ontology, before)(p) != [] ==> p in StoredPaths(ontology, before);
      }
    }
  }

  lemma HeldIsStored(ontology: Ontology, ops: seq<Op>)
    ensures forall p :: Held(ontology, ops)(p) != [] ==> Stored(ontology, ops)(p) != []
  {
    forall p | Held(ontology, ops)(p) != [] ensures Stored(ontology, ops)(p) != [] {
      if Stored(ontology, ops)(p) == [] {
        NothingStored(ontology, ops, p);
      }
    }
  }

  // What is in the files.
  function AllHeld(ontology: Ontology, ops: seq<Op>): multiset<Event>
  {
    Summed(StoredPaths(ontology, ops), Held(ontology, ops))
  }

  // However the files are listed.
  lemma AllHeldIs(ontology: Ontology, ops: seq<Op>, paths: seq<Path>)
    requires Covers(paths, Held(ontology, ops))
    ensures Summed(paths, Held(ontology, ops)) == AllHeld(ontology, ops)
  {
    StoredPathsCover(ontology, ops);
    HeldIsStored(ontology, ops);
    SummedOnce(paths, StoredPaths(ontology, ops), Held(ontology, ops));
  }

  // Main result: over any run, what was delivered with what is pending in all the files holds all the events, each as many
  // times as it was stored; and nothing more, if and only if no retrieval found a line which cannot be read after others.
  lemma StoreConservation(ontology: Ontology, ops: seq<Op>, orders: seq<seq<Path>>, outs: seq<seq<Event>>)
    requires IsRun(ontology, ops, orders, outs)
    ensures
      var all := multiset(Concat(outs)) + AllHeld(ontology, ops);
      && AllStored(ontology, ops) <= all
      && (AllStored(ontology, ops) == all <==> forall p :: NeverBlockedLate(ontology, ops, p))
  {
    var paths := StoredPaths(ontology, ops);
    StoredPathsCover(ontology, ops);
    StoredIs(ontology, ops, paths);
    GivenIs(ontology, ops, orders, outs, paths);
    SummedExcess(ontology, ops, paths);
    forall p | p !in paths ensures NeverBlockedLate(ontology, ops, p) {
      assert Stored(ontology, ops)(p) == [];
      NothingStored(ontology, ops, p);
    }
  }

  // When all the events are complete, everything is delivered once by the last retrieval.
  lemma AllDeliveredOnce(ontology: Ontology, ops: seq<Op>, orders: seq<seq<Path>>, outs: seq<seq<Event>>)
    requires IsRun(ontology, ops, orders, outs)
    requires ops != [] && ops[|ops| - 1].Get?
    requires forall i :: 0 <= i < |ops| && ops[i].Put? ==> ontology.Complete(ops[i].event)
    ensures multiset(Concat(outs)) == AllStored(ontology, ops)
  {
    forall p ensures NeverBlockedLate(ontology, ops, p) && Held(ontology, ops)(p) == [] {
      CompleteEventsAreStored(ontology, ops, p);
      CompleteNeverBlocks(ontology, ops, p);
      DeliveredIffComplete(ontology, ops, p);
    }
    StoreConservation(ontology, ops, orders, outs);
    SummedNothing(StoredPaths(ontology, ops), Held(ontology, ops));
  }

  // ---- the program ----

  function Lines(files: map<Path, seq<Event>>): Path -> seq<Event> { p => LinesOf(files, p) }

  // What is in the files after a run is what the histories of all the files hold.
  lemma FilesHold(ontology: Ontology, ops: seq<Op>, files: map<Path, seq<Event>>, order: seq<Path>)
    requires IsListing(order, files.Keys) && forall p :: LinesOf(files, p) == After(ontology, ops, p).pending
    ensures Summed(order, Lines(files)) == AllHeld(ontology, ops)
  {
    SummedSame(order, Lines(files), Held(ontology, ops));
    forall p | Held(ontology, ops)(p) != [] ensures p in order {
      assert LinesOf(files, p) != [];
    }
    AllHeldIs(ontology, ops, order);
  }

  // Any run of an empty store: nothing is lost, and nothing is repeated under the same condition.
  method RunStore(store: EventStore, ops: seq<Op>) returns (outs: seq<seq<Event>>)
    requires store.Valid() && store.files == map[]
    modifies store`files
    ensures store.Valid()
    ensures forall order :: IsListing(order, store.files.Keys) ==>
      var all := multiset(Concat(outs)) + Summed(order, Lines(store.files));
      && AllStored(store.ontology, ops) <= all
      && (AllStored(store.ontology, ops) == all <==> forall p :: NeverBlockedLate(store.ontology, ops, p))
  {
    ghost var orders;
    outs, orders := store.Run(ops);
    StoreConservation(store.ontology, ops, orders, outs);
    forall order | IsListing(order, store.files.Keys) ensures Summed(order, Lines(store.files)) == AllHeld(store.ontology, ops) {
      assert forall p :: LinesOf(store.files, p) == store.Pending(p);
      FilesHold(store.ontology, ops, store.files, order);
    }
  }
}
