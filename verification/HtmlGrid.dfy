/** lib_export_html: the objects are grouped, then each class is shown as a table with row spans. */
module HtmlGrid {
  import opened Text
  import opened Collections
  import opened Sorting
  import opened Properties

  datatype Triple = Triple(subj: string, pred: string, obj: string)

  // These are shown without their predicate, on two columns.
  predicate IsWide(pred: string)
  {
    pred == INFORMATION || pred == NOLIST1 || pred == NOLIST2
  }

  // ---- a table of HTML, as a browser lays it out ----

  datatype Content = Subject(s: string) | Predicate(p: string) | Object(o: string)

  datatype Cell = Cell(content: Content, rowspan: nat, colspan: nat)

  // What is in one column when a row starts: a cell from above may go on for some rows.
  datatype Slot = Free | Taken(content: Content, left: nat)

  // Cells go to the free columns, from the left. Nothing if there is a gap, an overlap or an overflow.
  function Fill(slots: seq<Slot>, cells: seq<Cell>): (r: Option<seq<Slot>>)
    ensures r.Some? ==> |r.value| == |slots| && (forall k :: 0 <= k < |slots| ==> r.value[k].Taken?)
    decreases |slots|
  {
    if slots == [] then (if cells == [] then Some([]) else None)
    else if slots[0].Taken? then Prepend([slots[0]], Fill(slots[1..], cells))
    else if cells == [] then None
    else
      var c := cells[0];
      if c.rowspan == 0 || c.colspan == 0 || c.colspan > |slots| || (exists k :: 0 <= k < c.colspan && slots[k].Taken?) then None
      else Prepend(seq(c.colspan, _ => Taken(c.content, c.rowspan)), Fill(slots[c.colspan..], cells[1..]))
  }

  function Prepend(first: seq<Slot>, others: Option<seq<Slot>>): (r: Option<seq<Slot>>)
  {
    if others.None? then None else Some(first + others.value)
  }

  function Contents(slots: seq<Slot>): (r: seq<Content>)
    requires forall k :: 0 <= k < |slots| ==> slots[k].Taken?
    ensures |r| == |slots|
  {
    seq(|slots|, k requires 0 <= k < |slots| => slots[k].content)
  }

  function OneRowLess(s: Slot): Slot
  {
    if s.Free? || s.left <= 1 then Free else s.(left := s.left - 1)
  }

  function NextRow(slots: seq<Slot>): (r: seq<Slot>)
    ensures |r| == |slots|
  {
    seq(|slots|, k requires 0 <= k < |slots| => OneRowLess(slots[k]))
  }

  // The rows of the grid, and what goes on below.
  datatype Grid = Grid(lines: seq<seq<Content>>, below: seq<Slot>)

  function Layout(rows: seq<seq<Cell>>, slots: seq<Slot>): Option<Grid>
  {
    if rows == [] then Some(Grid([], slots))
    else
      match Layout(rows[..|rows| - 1], slots)
      case None => None
      case Some(g) => LayoutRow(g, rows[|rows| - 1])
  }

  function LayoutRow(g: Grid, row: seq<Cell>): Option<Grid>
  {
    match Fill(g.below, row)
    case None => None
    case Some(filled) => Some(Grid(g.lines + [Contents(filled)], NextRow(filled)))
  }

  // Three columns.
  const EMPTY: seq<Slot> := [Free, Free, Free]

  // A complete table: no gap, no overlap, and no cell goes below the last row.
  ghost predicate IsTable(rows: seq<seq<Cell>>, lines: seq<seq<Content>>)
  {
    Layout(rows, EMPTY) == Some(Grid(lines, EMPTY))
  }

  // ---- what must be seen ----

  function Line(t: Triple): seq<Content>
  {
    [Subject(t.subj), if IsWide(t.pred) then Object(t.obj) else Predicate(t.pred), Object(t.obj)]
  }

  function Lines(leaves: seq<Triple>): (r: seq<seq<Content>>)
    ensures |r| == |leaves|
  {
    seq(|leaves|, k requires 0 <= k < |leaves| => Line(leaves[k]))
  }

  // ---- one row ----

  function SubjectSlot(s: string, total: nat, done: nat): Slot
    requires done <= total
  {
    if done == 0 || done == total then Free else Taken(Subject(s), total - done)
  }

  function PredicateSlot(p: string, total: nat, done: nat): Slot
    requires done <= total
  {
    if IsWide(p) || done == 0 || done == total then Free else Taken(Predicate(p), total - done)
  }

  // Where the table is after some lines of a subject and of one of its predicates.
  function SlotsAt(s: string, cntPreds: nat, done: nat, p: string, cntObjs: nat, k: nat): seq<Slot>
    requires done <= cntPreds && k <= cntObjs
  {
    [SubjectSlot(s, cntPreds, done), PredicateSlot(p, cntObjs, k), Free]
  }

  function RowCells(s: string, cntPreds: nat, p: string, cntObjs: nat, o: string, withSubject: bool, withPredicate: bool): seq<Cell>
  {
    (if withSubject then [Cell(Subject(s), cntPreds, 1)] else [])
    + (if withPredicate && !IsWide(p) then [Cell(Predicate(p), cntObjs, 1)] else [])
    + [Cell(Object(o), 1, if IsWide(p) then 2 else 1)]
  }

  lemma FillFree(slots: seq<Slot>, c: Cell, cells: seq<Cell>)
    requires c.rowspan > 0 && c.colspan == 1
    ensures Fill([Free] + slots, [c] + cells) == Prepend([Taken(c.content, c.rowspan)], Fill(slots, cells))
  {
    var all := [Free] + slots;
    assert all[1..] == slots && ([c] + cells)[1..] == cells;
    assert all[0] == Free;
    assert seq(1, _ => Taken(c.content, c.rowspan)) == [Taken(c.content, c.rowspan)];
  }

  lemma FillTaken(slot: Slot, slots: seq<Slot>, cells: seq<Cell>)
    requires slot.Taken?
    ensures Fill([slot] + slots, cells) == Prepend([slot], Fill(slots, cells))
  {
    assert ([slot] + slots)[1..] == slots;
  }

  lemma FillTwo(c: Cell)
    requires c.rowspan > 0 && c.colspan == 2
    ensures Fill([Free, Free], [c]) == Some([Taken(c.content, c.rowspan), Taken(c.content, c.rowspan)])
  {
    var slots: seq<Slot> := [Free, Free];
    assert slots[2..] == [] && [c][1..] == [];
    assert slots[0] == Free && slots[1] == Free;
    var two := [Taken(c.content, c.rowspan), Taken(c.content, c.rowspan)];
    assert seq(2, _ => Taken(c.content, c.rowspan)) == two && two + [] == two;
    assert Fill([], []) == Some([]);
  }

  lemma RowIsFull(s: string, cntPreds: nat, done: nat, p: string, cntObjs: nat, k: nat, o: string)
    requires done < cntPreds && k < cntObjs
    ensures Fill(SlotsAt(s, cntPreds, done, p, cntObjs, k), RowCells(s, cntPreds, p, cntObjs, o, done == 0, k == 0)) ==
      Some([Taken(Subject(s), cntPreds - done),
            if IsWide(p) then Taken(Object(o), 1) else Taken(Predicate(p), cntObjs - k),
            Taken(Object(o), 1)])
  {
    var slots := [PredicateSlot(p, cntObjs, k), Free];
    var cells := EndCells(p, cntObjs, o, k == 0);
    EndIsFull(p, cntObjs, k, o);
    assert SlotsAt(s, cntPreds, done, p, cntObjs, k) == [SubjectSlot(s, cntPreds, done)] + slots;
    var a, b, c := Taken(Subject(s), cntPreds - done), if IsWide(p) then Taken(Object(o), 1) else Taken(Predicate(p), cntObjs - k), Taken(Object(o), 1);
    assert [a] + [b, c] == [a, b, c];
    if done == 0 {
      FillFree(slots, Cell(Subject(s), cntPreds, 1), cells);
      assert RowCells(s, cntPreds, p, cntObjs, o, true, k == 0) == [Cell(Subject(s), cntPreds, 1)] + cells;
    } else {
      FillTaken(SubjectSlot(s, cntPreds, done), slots, cells);
      assert RowCells(s, cntPreds, p, cntObjs, o, false, k == 0) == cells;
    }
  }

  function EndCells(p: string, cntObjs: nat, o: string, withPredicate: bool): seq<Cell>
  {
    (if withPredicate && !IsWide(p) then [Cell(Predicate(p), cntObjs, 1)] else [])
    + [Cell(Object(o), 1, if IsWide(p) then 2 else 1)]
  }

  // The two columns after the subject.
  lemma EndIsFull(p: string, cntObjs: nat, k: nat, o: string)
    requires k < cntObjs
    ensures Fill([PredicateSlot(p, cntObjs, k), Free], EndCells(p, cntObjs, o, k == 0)) ==
      Some([if IsWide(p) then Taken(Object(o), 1) else Taken(Predicate(p), cntObjs - k), Taken(Object(o), 1)])
  {
    var last := Cell(Object(o), 1, if IsWide(p) then 2 else 1);
    if IsWide(p) {
      FillTwo(last);
    } else {
      FillFree([], last, []);
      assert [Free] + [] == [Free] && [last] + [] == [last];
      var a, b := Taken(Predicate(p), cntObjs - k), Taken(Object(o), 1);
      assert [b] + [] == [b] && [a] + [b] == [a, b];
      if k == 0 {
        FillFree([Free], Cell(Predicate(p), cntObjs, 1), [last]);
      } else {
        FillTaken(PredicateSlot(p, cntObjs, k), [Free], [last]);
      }
    }
  }

  // One more row of the table is one more line of the grid.
  lemma RowIsRead(rows: seq<seq<Cell>>, leaves: seq<Triple>, s: string, cntPreds: nat, done: nat, p: string, cntObjs: nat, k: nat, o: string)
    requires done < cntPreds && k < cntObjs
    requires Layout(rows, EMPTY) == Some(Grid(Lines(leaves), SlotsAt(s, cntPreds, done, p, cntObjs, k)))
    ensures Layout(rows + [RowCells(s, cntPreds, p, cntObjs, o, done == 0, k == 0)], EMPTY) ==
      Some(Grid(Lines(leaves + [Triple(s, p, o)]), SlotsAt(s, cntPreds, done + 1, p, cntObjs, k + 1)))
  {
    var row := RowCells(s, cntPreds, p, cntObjs, o, done == 0, k == 0);
    RowIsFull(s, cntPreds, done, p, cntObjs, k, o);
    assert (rows + [row])[..|rows|] == rows;
    var filled := Fill(SlotsAt(s, cntPreds, done, p, cntObjs, k), row).value;
    assert Contents(filled) == Line(Triple(s, p, o));
    assert NextRow(filled) == SlotsAt(s, cntPreds, done + 1, p, cntObjs, k + 1);
    assert Lines(leaves + [Triple(s, p, o)]) == Lines(leaves) + [Line(Triple(s, p, o))];
  }

  // ---- the order of the lines ----

  // How subjects and objects are titled.
  datatype Titles = Titles(ofSubject: string -> string, ofObject: string -> string)
  {
    // By the title of the subject, then the predicate, then the title of the object.
    ghost predicate Before(x: Triple, y: Triple)
    {
      if x.subj != y.subj then !Less(ofSubject(y.subj), ofSubject(x.subj))
      else if x.pred != y.pred then Less(x.pred, y.pred)
      else !Less(ofObject(y.obj), ofObject(x.obj))
    }

    ghost predicate InOrder(leaves: seq<Triple>)
    {
      forall i, j :: 0 <= i < j < |leaves| ==> Before(leaves[i], leaves[j])
    }

    // The next subject is a new one, whose title is not before those of the others.
    ghost predicate IsNext(before: seq<Triple>, s: string)
    {
      forall x :: x in before ==> x.subj != s && !Less(ofSubject(s), ofSubject(x.subj))
    }

    lemma InOrderConcat(a: seq<Triple>, b: seq<Triple>)
      requires InOrder(a) && InOrder(b) && forall x, y :: x in a && y in b ==> Before(x, y)
      ensures InOrder(a + b)
    {
      var c := a + b;
      forall i, j | 0 <= i < j < |c| ensures Before(c[i], c[j]) {
        assert i < |a| ==> c[i] == a[i] && a[i] in a;
        assert j >= |a| ==> c[j] == b[j - |a|] && b[j - |a|] in b;
        assert i >= |a| ==> c[i] == b[i - |a|];
      }
    }

    lemma LeavesInOrder(s: string, p: string, objs: seq<string>)
      requires SortedBy(objs, ofObject)
      ensures InOrder(LeavesOf(s, p, objs))
    {
    }

    // The lines of the next predicate.
    lemma NextInOrder(before: seq<Triple>, s: string, dictPred: map<string, seq<string>>, done: set<string>, leaves: seq<Triple>, p: string, objs: seq<string>)
      requires InOrder(leaves) && IsNext(before, s) && CountedUpTo(before, s, dictPred, done, leaves)
      requires SortedBy(objs, ofObject) && forall q :: q in done ==> Less(q, p)
      ensures InOrder(leaves + LeavesOf(s, p, objs))
    {
      LeavesInOrder(s, p, objs);
      forall x, y | x in leaves && y in LeavesOf(s, p, objs) ensures Before(x, y) {
        assert multiset(leaves)[x] > 0;
        assert x in before || (x.subj == s && x.pred in done);
        LessTrichotomy(x.pred, p);
      }
      InOrderConcat(leaves, LeavesOf(s, p, objs));
    }
  }

  // ---- counting what is shown ----

  function LeavesOf(s: string, p: string, objs: seq<string>): (r: seq<Triple>)
    ensures |r| == |objs|
  {
    seq(|objs|, k requires 0 <= k < |objs| => Triple(s, p, objs[k]))
  }

  lemma {:induction false} CountLeaves(s: string, p: string, objs: seq<string>, t: Triple)
    ensures multiset(LeavesOf(s, p, objs))[t] == if t.subj == s && t.pred == p then multiset(objs)[t.obj] else 0
  {
    if objs != [] {
      var n := |objs| - 1;
      CountLeaves(s, p, objs[..n], t);
      assert LeavesOf(s, p, objs) == LeavesOf(s, p, objs[..n]) + [Triple(s, p, objs[n])];
      assert objs == objs[..n] + [objs[n]];
    }
  }

  // How many times a triple must be in the lines of a subject, for some of its predicates.
  ghost function CountIn(s: string, dictPred: map<string, seq<string>>, preds: set<string>, t: Triple): nat
  {
    if t.subj == s && t.pred in dictPred && t.pred in preds then multiset(dictPred[t.pred])[t.obj] else 0
  }

  ghost function CountInClass(dict: map<string, map<string, seq<string>>>, subjects: set<string>, t: Triple): nat
  {
    if t.subj in dict && t.subj in subjects then CountIn(t.subj, dict[t.subj], dict[t.subj].Keys, t) else 0
  }

  // No list is empty.
  ghost predicate NoEmptyList(dictPred: map<string, seq<string>>)
  {
    dictPred.Keys != {} && forall p :: p in dictPred ==> dictPred[p] != []
  }

  ghost function Total(dictPred: map<string, seq<string>>, preds: set<string>): (n: nat)
    requires preds <= dictPred.Keys
    decreases preds
  {
    if preds == {} then 0
    else
      var p :| p in preds;
      |dictPred[p]| + Total(dictPred, preds - {p})
  }

  lemma {:induction false} TotalWith(dictPred: map<string, seq<string>>, preds: set<string>, p: string)
    requires preds <= dictPred.Keys && p in preds
    ensures Total(dictPred, preds) == |dictPred[p]| + Total(dictPred, preds - {p})
    decreases preds
  {
    var q :| q in preds && Total(dictPred, preds) == |dictPred[q]| + Total(dictPred, preds - {q});
    if p != q {
      TotalWith(dictPred, preds - {q}, p);
      TotalWith(dictPred, preds - {p}, q);
      assert preds - {p} - {q} == preds - {q} - {p};
    }
  }

  // The predicates which are done, and how many lines they have.

  ghost predicate Fits(dictPred: map<string, seq<string>>, sorted: seq<string>) { forall p :: p in sorted ==> p in dictPred }

  function DoneAt(sorted: seq<string>, i: nat): set<string>
    requires i <= |sorted|
  {
    set p | p in sorted[..i]
  }

  ghost function DoneCount(dictPred: map<string, seq<string>>, sorted: seq<string>, i: nat): nat
    requires Fits(dictPred, sorted) && i <= |sorted|
  {
    if i == 0 then 0 else DoneCount(dictPred, sorted, i - 1) + |dictPred[sorted[i - 1]]|
  }

  lemma {:induction false} DoneIsTotal(dictPred: map<string, seq<string>>, sorted: seq<string>, i: nat)
    requires SortsTo(dictPred.Keys, sorted) && i <= |sorted|
    ensures DoneCount(dictPred, sorted, i) + Total(dictPred, dictPred.Keys - DoneAt(sorted, i)) == Total(dictPred, dictPred.Keys)
  {
    if i == 0 {
      assert dictPred.Keys - DoneAt(sorted, 0) == dictPred.Keys;
    } else {
      DoneIsTotal(dictPred, sorted, i - 1);
      SortedIsNew(sorted, i - 1);
      var p, left := sorted[i - 1], dictPred.Keys - DoneAt(sorted, i - 1);
      TotalWith(dictPred, left, p);
      assert left - {p} == dictPred.Keys - DoneAt(sorted, i);
    }
  }

  lemma AllDone(dictPred: map<string, seq<string>>, sorted: seq<string>)
    requires SortsTo(dictPred.Keys, sorted)
    ensures Fits(dictPred, sorted) && DoneAt(sorted, 0) == {} && DoneAt(sorted, |sorted|) == dictPred.Keys
    ensures DoneCount(dictPred, sorted, |sorted|) == Total(dictPred, dictPred.Keys)
  {
    DoneIsTotal(dictPred, sorted, |sorted|);
    assert sorted[..|sorted|] == sorted;
    assert dictPred.Keys - DoneAt(sorted, |sorted|) == {};
  }

  lemma NextPredicate(dictPred: map<string, seq<string>>, sorted: seq<string>, i: nat)
    requires NoEmptyList(dictPred) && SortsTo(dictPred.Keys, sorted) && i < |sorted|
    ensures sorted[i] in dictPred && sorted[i] !in DoneAt(sorted, i)
    ensures DoneAt(sorted, i + 1) == DoneAt(sorted, i) + {sorted[i]}
    ensures forall q :: q in DoneAt(sorted, i) ==> Less(q, sorted[i])
    ensures DoneCount(dictPred, sorted, i + 1) <= Total(dictPred, dictPred.Keys)
    ensures DoneCount(dictPred, sorted, i) == 0 <==> i == 0
  {
    SortedIsNew(sorted, i);
    DoneIsTotal(dictPred, sorted, i + 1);
    DoneIsLess(sorted, i);
    assert i > 0 ==> |dictPred[sorted[i - 1]]| > 0;
  }

  lemma DoneIsLess(sorted: seq<string>, i: nat)
    requires Ascending(sorted) && i < |sorted|
    ensures forall q :: q in DoneAt(sorted, i) ==> Less(q, sorted[i])
  {
  }

  lemma TotalIsPositive(dictPred: map<string, seq<string>>, preds: set<string>)
    requires preds <= dictPred.Keys && preds != {} && NoEmptyList(dictPred)
    ensures Total(dictPred, preds) > 0
  {
    var p :| p in preds;
    TotalWith(dictPred, preds, p);
  }

  // Where the table is between two predicates of a subject.
  function Between(s: string, cntPreds: nat, done: nat): seq<Slot>
    requires done <= cntPreds
  {
    [SubjectSlot(s, cntPreds, done), Free, Free]
  }

  ghost predicate IsAt(rows: seq<seq<Cell>>, leaves: seq<Triple>, slots: seq<Slot>)
  {
    Layout(rows, EMPTY) == Some(Grid(Lines(leaves), slots))
  }

  // The lines of one subject are added to those of the ones before.
  ghost predicate AddsSubject(before: seq<Triple>, after: seq<Triple>, s: string, dictPred: map<string, seq<string>>)
  {
    before <= after && forall t :: multiset(after)[t] == multiset(before)[t] + CountIn(s, dictPred, dictPred.Keys, t)
  }

  ghost predicate CountedUpTo(before: seq<Triple>, s: string, dictPred: map<string, seq<string>>, done: set<string>, leaves: seq<Triple>)
  {
    forall t :: multiset(leaves)[t] == multiset(before)[t] + CountIn(s, dictPred, done, t)
  }

  lemma OneMorePredicate(before: seq<Triple>, s: string, dictPred: map<string, seq<string>>, done: set<string>, leaves: seq<Triple>, p: string, objs: seq<string>)
    requires p in dictPred && p !in done && multiset(objs) == multiset(dictPred[p])
    requires CountedUpTo(before, s, dictPred, done, leaves)
    ensures CountedUpTo(before, s, dictPred, done + {p}, leaves + LeavesOf(s, p, objs))
  {
    forall t ensures multiset(leaves + LeavesOf(s, p, objs))[t] == multiset(before)[t] + CountIn(s, dictPred, done + {p}, t) {
      CountLeaves(s, p, objs, t);
    }
  }

  // The first predicates of a subject are done.
  ghost predicate Halfway(titles: Titles, s: string, dictPred: map<string, seq<string>>, sorted: seq<string>, i: nat, before: seq<Triple>, rows: seq<seq<Cell>>, leaves: seq<Triple>)
  {
    && i <= |sorted| && Fits(dictPred, sorted) && DoneCount(dictPred, sorted, i) <= Total(dictPred, dictPred.Keys)
    && IsAt(rows, leaves, Between(s, Total(dictPred, dictPred.Keys), DoneCount(dictPred, sorted, i)))
    && before <= leaves && CountedUpTo(before, s, dictPred, DoneAt(sorted, i), leaves)
    && titles.InOrder(leaves) && titles.IsNext(before, s)
  }

  lemma NothingDone(titles: Titles, s: string, dictPred: map<string, seq<string>>, sorted: seq<string>, before: seq<Triple>, rows: seq<seq<Cell>>)
    requires SortsTo(dictPred.Keys, sorted) && IsAt(rows, before, EMPTY) && titles.InOrder(before) && titles.IsNext(before, s)
    ensures Halfway(titles, s, dictPred, sorted, 0, before, rows, before)
  {
    AllDone(dictPred, sorted);
  }

  lemma EverythingDone(titles: Titles, s: string, dictPred: map<string, seq<string>>, sorted: seq<string>, before: seq<Triple>, rows: seq<seq<Cell>>, leaves: seq<Triple>)
    requires SortsTo(dictPred.Keys, sorted) && Halfway(titles, s, dictPred, sorted, |sorted|, before, rows, leaves)
    ensures AddsSubject(before, leaves, s, dictPred) && IsAt(rows, leaves, EMPTY) && titles.InOrder(leaves)
  {
    AllDone(dictPred, sorted);
  }

  lemma OneMoreSubject(dict: map<string, map<string, seq<string>>>, done: set<string>, leaves: seq<Triple>, s: string, after: seq<Triple>)
    requires s in dict && s !in done && AddsSubject(leaves, after, s, dict[s])
    requires forall t :: multiset(leaves)[t] == CountInClass(dict, done, t)
    ensures forall t :: multiset(after)[t] == CountInClass(dict, done + {s}, t)
  {
  }

  // ---- the program ----

  // The table which is being written.
  class Table {
    const titles: Titles
    var rows: seq<seq<Cell>>

    constructor (titles: Titles)
      ensures rows == [] && this.titles == titles
    {
      this.titles := titles;
      rows := [];
    }

    // The objects of one predicate, in the order of their titles.
    method DispPredicate(s: string, cntPreds: nat, ghost done: nat, mustWriteColOneSubj: bool, p: string, lstObjs: seq<string>, ghost leaves: seq<Triple>)
        returns (ghost order: seq<string>)
      requires lstObjs != [] && done + |lstObjs| <= cntPreds && mustWriteColOneSubj == (done == 0)
      requires IsAt(rows, leaves, Between(s, cntPreds, done))
      modifies this
      ensures multiset(order) == multiset(lstObjs) && SortedBy(order, titles.ofObject)
      ensures IsAt(rows, leaves + LeavesOf(s, p, order), Between(s, cntPreds, done + |lstObjs|))
    {
      var lstTuplesObjs := SortBy(lstObjs, titles.ofObject);
      order := lstTuplesObjs;
      SameLength(order, lstObjs);
      var cntObjs := |lstObjs|;
      assert leaves + LeavesOf(s, p, []) == leaves;
      for k := 0 to cntObjs
        invariant IsAt(rows, leaves + LeavesOf(s, p, order[..k]), SlotsAt(s, cntPreds, done + k, p, cntObjs, k))
      {
        DispObject(s, cntPreds, done, mustWriteColOneSubj && k == 0, p, cntObjs, k == 0, lstTuplesObjs[k], leaves, order[..k]);
        assert order[..k + 1] == order[..k] + [order[k]];
      }
      assert order[..|order|] == order;
    }

    // One row.
    method DispObject(s: string, cntPreds: nat, ghost done: nat, mustWriteColOneSubj: bool, p: string, cntObjs: nat,
                      mustWriteColOnePred: bool, o: string, ghost leaves: seq<Triple>, ghost order: seq<string>)
      requires done + |order| < cntPreds && |order| < cntObjs
      requires mustWriteColOneSubj == (done + |order| == 0) && mustWriteColOnePred == (|order| == 0)
      requires IsAt(rows, leaves + LeavesOf(s, p, order), SlotsAt(s, cntPreds, done + |order|, p, cntObjs, |order|))
      modifies this
      ensures IsAt(rows, leaves + LeavesOf(s, p, order + [o]), SlotsAt(s, cntPreds, done + |order| + 1, p, cntObjs, |order| + 1))
    {
      RowIsRead(rows, leaves + LeavesOf(s, p, order), s, cntPreds, done + |order|, p, cntObjs, |order|, o);
      OneMoreObject(leaves, s, p, order, o);
      rows := rows + [RowCells(s, cntPreds, p, cntObjs, o, mustWriteColOneSubj, mustWriteColOnePred)];
    }

    // The predicates are sorted.
    method DispSubject(s: string, dictPred: map<string, seq<string>>, ghost before: seq<Triple>) returns (ghost leaves: seq<Triple>)
      requires NoEmptyList(dictPred) && IsAt(rows, before, EMPTY) && titles.InOrder(before) && titles.IsNext(before, s)
      modifies this
      ensures AddsSubject(before, leaves, s, dictPred) && IsAt(rows, leaves, EMPTY) && titles.InOrder(leaves)
    {
      var cntPreds := CountObjects(dictPred);
      TotalIsPositive(dictPred, dictPred.Keys);
      var sorted := SortKeys(dictPred.Keys);
      leaves := DispPredicates(s, dictPred, cntPreds, sorted, before);
    }

    method DispPredicates(s: string, dictPred: map<string, seq<string>>, cntPreds: nat, sorted: seq<string>, ghost before: seq<Triple>)
        returns (ghost leaves: seq<Triple>)
      requires NoEmptyList(dictPred) && SortsTo(dictPred.Keys, sorted) && cntPreds == Total(dictPred, dictPred.Keys)
      requires IsAt(rows, before, EMPTY) && titles.InOrder(before) && titles.IsNext(before, s)
      modifies this
      ensures AddsSubject(before, leaves, s, dictPred) && IsAt(rows, leaves, EMPTY) && titles.InOrder(leaves)
    {
      leaves := before;
      NothingDone(titles, s, dictPred, sorted, before, rows);
      for i := 0 to |sorted|
        invariant Halfway(titles, s, dictPred, sorted, i, before, rows, leaves)
      {
        leaves := DispOne(s, dictPred, cntPreds, sorted, i, before, leaves);
      }
      EverythingDone(titles, s, dictPred, sorted, before, rows, leaves);
    }

    method DispOne(s: string, dictPred: map<string, seq<string>>, cntPreds: nat, sorted: seq<string>, i: nat, ghost before: seq<Triple>, ghost leaves: seq<Triple>)
        returns (ghost r: seq<Triple>)
      requires NoEmptyList(dictPred) && SortsTo(dictPred.Keys, sorted) && cntPreds == Total(dictPred, dictPred.Keys) && i < |sorted|
      requires Halfway(titles, s, dictPred, sorted, i, before, rows, leaves)
      modifies this
      ensures Halfway(titles, s, dictPred, sorted, i + 1, before, rows, r)
    {
      NextPredicate(dictPred, sorted, i);
      var p := sorted[i];
      ghost var order := DispPredicate(s, cntPreds, DoneCount(dictPred, sorted, i), i == 0, p, dictPred[p], leaves);
      OneMorePredicate(before, s, dictPred, DoneAt(sorted, i), leaves, p, order);
      titles.NextInOrder(before, s, dictPred, DoneAt(sorted, i), leaves, p, order);
      r := leaves + LeavesOf(s, p, order);
    }

    // The number of lines of a subject.
    method CountObjects(dictPred: map<string, seq<string>>) returns (cntPreds: nat)
      ensures cntPreds == Total(dictPred, dictPred.Keys)
    {
      cntPreds := 0;
      var todo := dictPred.Keys;
      while todo != {}
        invariant todo <= dictPred.Keys
        invariant cntPreds + Total(dictPred, todo) == Total(dictPred, dictPred.Keys)
        decreases todo
      {
        var p :| p in todo;
        TotalWith(dictPred, todo, p);
        todo := todo - {p};
        cntPreds := cntPreds + |dictPred[p]|;
      }
    }

    // All the subjects of one class, in the order of their titles.
    method DispClassObjects(dict: map<string, map<string, seq<string>>>) returns (ghost leaves: seq<Triple>)
      requires rows == [] && forall s :: s in dict ==> NoEmptyList(dict[s])
      modifies this
      ensures IsTable(rows, Lines(leaves)) && titles.InOrder(leaves)
      ensures forall t :: multiset(leaves)[t] == CountInClass(dict, dict.Keys, t)
    {
      var lstTuplesSubjects := SortSubjects(dict.Keys);
      leaves := [];
      assert Lines([]) == [] && DoneAt(lstTuplesSubjects, 0) == {};
      for i := 0 to |lstTuplesSubjects|
        invariant IsAt(rows, leaves, EMPTY) && titles.InOrder(leaves)
        invariant forall t :: multiset(leaves)[t] == CountInClass(dict, DoneAt(lstTuplesSubjects, i), t)
      {
        var s := lstTuplesSubjects[i];
        ghost var before := leaves;
        NextSubject(dict, lstTuplesSubjects, i, leaves);
        leaves := DispSubject(s, dict[s], before);
        OneMoreSubject(dict, DoneAt(lstTuplesSubjects, i), before, s, leaves);
      }
      assert DoneAt(lstTuplesSubjects, |lstTuplesSubjects|) == dict.Keys;
    }

    ghost predicate IsOrder(subjects: seq<string>, names: set<string>)
    {
      NoDup(subjects) && (forall s :: s in subjects <==> s in names) && SortedBy(subjects, titles.ofSubject)
    }

    lemma NextSubject(dict: map<string, map<string, seq<string>>>, subjects: seq<string>, i: nat, leaves: seq<Triple>)
      requires IsOrder(subjects, dict.Keys) && i < |subjects|
      requires forall t :: multiset(leaves)[t] == CountInClass(dict, DoneAt(subjects, i), t)
      ensures titles.IsNext(leaves, subjects[i])
      ensures subjects[i] !in DoneAt(subjects, i) && DoneAt(subjects, i + 1) == DoneAt(subjects, i) + {subjects[i]}
    {
      NextPrefix(subjects, i);
      forall x | x in leaves ensures x.subj != subjects[i] && !Less(titles.ofSubject(subjects[i]), titles.ofSubject(x.subj)) {
        assert multiset(leaves)[x] > 0;
        var k :| 0 <= k < i && subjects[k] == x.subj;
      }
    }

    // The subjects of a dictionary come in any order, then are sorted.
    method SortSubjects(names: set<string>) returns (subjects: seq<string>)
      ensures IsOrder(subjects, names)
    {
      var listed: seq<string> := [];
      var todo := names;
      while todo != {}
        invariant todo <= names && NoDup(listed)
        invariant forall x :: x in listed <==> x in names - todo
        decreases todo
      {
        var s :| s in todo;
        todo := todo - {s};
        OneMore(listed, s);
        listed := listed + [s];
      }
      subjects := SortBy(listed, titles.ofSubject);
      SameElements(listed, subjects);
    }
  }

  lemma {:induction false} SameElements(a: seq<string>, b: seq<string>)
    requires NoDup(a) && multiset(a) == multiset(b)
    ensures NoDup(b) && forall s :: s in b <==> s in a
  {
    forall s ensures s in b <==> s in a {
      assert s in a <==> multiset(a)[s] > 0;
      assert s in b <==> multiset(b)[s] > 0;
    }
    forall i, j | 0 <= i < j < |b| ensures b[i] != b[j] {
      OnceOnly(a, b[i]);
      if b[i] == b[j] {
        Twice(b, i, j);
      }
    }
  }

  lemma {:induction false} OnceOnly(a: seq<string>, s: string)
    requires NoDup(a)
    ensures multiset(a)[s] <= 1
  {
    if a != [] {
      var n := |a| - 1;
      OnceOnly(a[..n], s);
      assert a == a[..n] + [a[n]];
      assert a[n] !in a[..n];
    }
  }

  lemma Twice(b: seq<string>, i: nat, j: nat)
    requires i < j < |b| && b[i] == b[j]
    ensures multiset(b)[b[i]] >= 2
  {
    assert b == b[..i] + [b[i]] + b[i + 1..j] + [b[j]] + b[j + 1..];
  }

  lemma OneMore(a: seq<string>, x: string)
    requires NoDup(a) && x !in a
    ensures NoDup(a + [x]) && forall y :: y in a + [x] <==> y in a || y == x
  {
  }

  lemma SameLength(a: seq<string>, b: seq<string>)
    requires multiset(a) == multiset(b)
    ensures |a| == |b|
  {
    assert |multiset(a)| == |a| && |multiset(b)| == |b|;
  }

  lemma OneMoreObject(leaves: seq<Triple>, s: string, p: string, order: seq<string>, o: string)
    ensures leaves + LeavesOf(s, p, order + [o]) == leaves + LeavesOf(s, p, order) + [Triple(s, p, o)]
  {
    assert LeavesOf(s, p, order + [o]) == LeavesOf(s, p, order) + [Triple(s, p, o)];
  }

  lemma SortedIsNew(sorted: seq<string>, i: nat)
    requires Ascending(sorted) && i < |sorted|
    ensures sorted[i] !in sorted[..i] && sorted[..i + 1] == sorted[..i] + [sorted[i]]
  {
    forall j | 0 <= j < i ensures sorted[j] != sorted[i] {
      LessTrichotomy(sorted[j], sorted[i]);
    }
  }

  // ---- the grouping ----

  type Predicates = map<string, seq<string>>
  type Subjects = map<string, Predicates>

  // Where the class of an object is read in its URL, and its title.
  datatype Grouping = Grouping(classOf: string -> string, titles: Titles)
  {
    // An empty information is not shown.
    predicate IsShown(t: Triple) { !(t.pred == INFORMATION && t.obj == "") }

    ghost function Count(classes: map<string, Subjects>, t: Triple): nat
    {
      var c := classOf(t.subj);
      if c in classes then CountInClass(classes[c], classes[c].Keys, t) else 0
    }

    // Each triple has one leaf, and there is nothing else: no empty list, and no object out of its class.
    ghost predicate IsGrouped(classes: map<string, Subjects>, triples: set<Triple>)
    {
      && (forall t :: Count(classes, t) == if t in triples && IsShown(t) then 1 else 0)
      && (forall c :: c in classes ==> IsClass(classes[c], c))
    }

    ghost predicate IsClass(subjects: Subjects, c: string)
    {
      subjects.Keys != {} && forall s :: s in subjects ==> classOf(s) == c && NoEmptyList(subjects[s])
    }

    function AddObject(predicates: Predicates, t: Triple): Predicates
    {
      predicates[t.pred := (if t.pred in predicates then predicates[t.pred] else []) + [t.obj]]
    }

    function AddSubject(subjects: Subjects, t: Triple): Subjects
    {
      subjects[t.subj := AddObject(if t.subj in subjects then subjects[t.subj] else map[], t)]
    }

    function Add(classes: map<string, Subjects>, t: Triple): map<string, Subjects>
    {
      var c := classOf(t.subj);
      classes[c := AddSubject(if c in classes then classes[c] else map[], t)]
    }

    lemma AddObjectCounts(predicates: Predicates, t: Triple, u: Triple)
      ensures CountIn(t.subj, AddObject(predicates, t), AddObject(predicates, t).Keys, u) ==
        CountIn(t.subj, predicates, predicates.Keys, u) + if u == t then 1 else 0
    {
    }

    lemma AddSubjectCounts(subjects: Subjects, t: Triple, u: Triple)
      ensures CountInClass(AddSubject(subjects, t), AddSubject(subjects, t).Keys, u) ==
        CountInClass(subjects, subjects.Keys, u) + if u == t then 1 else 0
    {
      AddObjectCounts(if t.subj in subjects then subjects[t.subj] else map[], t, u);
    }

    lemma AddCounts(classes: map<string, Subjects>, t: Triple, u: Triple)
      ensures Count(Add(classes, t), u) == Count(classes, u) + if u == t then 1 else 0
    {
      var c := classOf(t.subj);
      AddSubjectCounts(if c in classes then classes[c] else map[], t, u);
    }

    lemma AddIsGrouped(classes: map<string, Subjects>, triples: set<Triple>, t: Triple)
      requires IsGrouped(classes, triples) && t !in triples && IsShown(t)
      ensures IsGrouped(Add(classes, t), triples + {t})
    {
      forall u ensures Count(Add(classes, t), u) == if u in triples + {t} && IsShown(u) then 1 else 0 {
        AddCounts(classes, t, u);
      }
      var c := classOf(t.subj);
      AddIsClass(if c in classes then classes[c] else map[], t);
    }

    lemma AddIsClass(subjects: Subjects, t: Triple)
      requires subjects == map[] || IsClass(subjects, classOf(t.subj))
      ensures IsClass(AddSubject(subjects, t), classOf(t.subj))
    {
    }

    method GroupAll(graph: set<Triple>) returns (classes: map<string, Subjects>)
      ensures IsGrouped(classes, graph)
    {
      classes := map[];
      var todo := graph;
      while todo != {}
        invariant todo <= graph && IsGrouped(classes, graph - todo)
        decreases todo
      {
        var t :| t in todo;
        assert graph - (todo - {t}) == graph - todo + {t};
        if IsShown(t) {
          AddIsGrouped(classes, graph - todo, t);
          classes := GroupOne(classes, t);
        }
        todo := todo - {t};
      }
      assert graph - {} == graph;
    }

    method GroupOne(classes: map<string, Subjects>, t: Triple) returns (r: map<string, Subjects>)
      ensures r == Add(classes, t)
    {
      var c := classOf(t.subj);
      if c !in classes {
        assert [] + [t.obj] == [t.obj];
        return classes[c := map[t.subj := map[t.pred := [t.obj]]]];
      }
      var subjects := classes[c];
      if t.subj !in subjects {
        assert [] + [t.obj] == [t.obj];
        subjects := subjects[t.subj := map[t.pred := [t.obj]]];
      } else {
        var predicates := subjects[t.subj];
        if t.pred in predicates {
          predicates := predicates[t.pred := predicates[t.pred] + [t.obj]];
        } else {
          assert [] + [t.obj] == [t.obj];
          predicates := predicates[t.pred := [t.obj]];
        }
        subjects := subjects[t.subj := predicates];
      }
      r := classes[c := subjects];
    }

    // The page has one complete table for each class, in order; each triple which is shown has one line,
    // in the table of the class of its subject, and there is no other line.
    method WriteAllObjects(graph: set<Triple>) returns (names: seq<string>, tables: seq<seq<seq<Cell>>>, ghost leaves: seq<seq<Triple>>)
      ensures SortsTo(set t | t in graph && IsShown(t) :: classOf(t.subj), names)
      ensures |tables| == |leaves| == |names|
      ensures forall i :: 0 <= i < |names| ==> IsTable(tables[i], Lines(leaves[i])) && titles.InOrder(leaves[i])
      ensures forall i, t :: 0 <= i < |names| ==>
        multiset(leaves[i])[t] == if t in graph && IsShown(t) && classOf(t.subj) == names[i] then 1 else 0
    {
      var classes := GroupAll(graph);
      names := SortKeys(classes.Keys);
      ClassesAre(classes, graph);
      tables, leaves := WriteTables(classes, names);
      forall i, t | 0 <= i < |names|
        ensures multiset(leaves[i])[t] == if t in graph && IsShown(t) && classOf(t.subj) == names[i] then 1 else 0
      {
        CountOfClass(classes, graph, names[i], t);
      }
    }

    ghost predicate Counts(subjects: Subjects, leaves: seq<Triple>)
    {
      forall t :: multiset(leaves)[t] == CountInClass(subjects, subjects.Keys, t)
    }

    // A complete table, in order.
    ghost predicate IsPage(subjects: Subjects, rows: seq<seq<Cell>>, leaves: seq<Triple>)
    {
      IsTable(rows, Lines(leaves)) && titles.InOrder(leaves) && Counts(subjects, leaves)
    }

    method WriteTables(classes: map<string, Subjects>, names: seq<string>) returns (tables: seq<seq<seq<Cell>>>, ghost leaves: seq<seq<Triple>>)
      requires forall c :: c in names ==> c in classes
      requires forall c :: c in classes ==> IsClass(classes[c], c)
      ensures |tables| == |leaves| == |names|
      ensures forall i :: 0 <= i < |names| ==> IsPage(classes[names[i]], tables[i], leaves[i])
    {
      tables, leaves := [], [];
      for i := 0 to |names|
        invariant |tables| == |leaves| == i
        invariant forall k :: 0 <= k < i ==> IsPage(classes[names[k]], tables[k], leaves[k])
      {
        assert IsClass(classes[names[i]], names[i]);
        var rows;
        ghost var lines;
        rows, lines := WriteTable(classes[names[i]]);
        tables, leaves := tables + [rows], leaves + [lines];
      }
    }

    method WriteTable(subjects: Subjects) returns (rows: seq<seq<Cell>>, ghost leaves: seq<Triple>)
      requires forall s :: s in subjects ==> NoEmptyList(subjects[s])
      ensures IsPage(subjects, rows, leaves)
    {
      var table := new Table(titles);
      leaves := table.DispClassObjects(subjects);
      rows := table.rows;
    }

    lemma CountOfClass(classes: map<string, Subjects>, graph: set<Triple>, c: string, t: Triple)
      requires IsGrouped(classes, graph) && c in classes
      ensures CountInClass(classes[c], classes[c].Keys, t) == if t in graph && IsShown(t) && classOf(t.subj) == c then 1 else 0
    {
      assert IsClass(classes[c], c);
      assert Count(classes, t) == if t in graph && IsShown(t) then 1 else 0;
    }

    lemma ClassHasTriple(classes: map<string, Subjects>, graph: set<Triple>, c: string)
      requires IsGrouped(classes, graph) && c in classes
      ensures exists t :: t in graph && IsShown(t) && classOf(t.subj) == c
    {
      assert IsClass(classes[c], c);
      var s :| s in classes[c];
      var t := SomeTriple(s, classes[c][s]);
      assert CountInClass(classes[c], classes[c].Keys, t) > 0;
      assert Count(classes, t) > 0;
    }

    ghost function SomeTriple(s: string, dictPred: Predicates): (t: Triple)
      requires NoEmptyList(dictPred)
      ensures t.subj == s && CountIn(s, dictPred, dictPred.Keys, t) > 0
    {
      var p :| p in dictPred;
      assert dictPred[p][0] in dictPred[p];
      Triple(s, p, dictPred[p][0])
    }

    lemma ClassesAre(classes: map<string, Subjects>, graph: set<Triple>)
      requires IsGrouped(classes, graph)
      ensures classes.Keys == set t | t in graph && IsShown(t) :: classOf(t.subj)
    {
      forall c | c in classes ensures exists t :: t in graph && IsShown(t) && classOf(t.subj) == c {
        ClassHasTriple(classes, graph, c);
      }
      forall t | t in graph && IsShown(t) ensures classOf(t.subj) in classes {
        assert Count(classes, t) == 1;
      }
    }
  }
}
