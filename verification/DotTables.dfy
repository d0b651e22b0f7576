/** The table of a collapsed property: its columns, and one row an object under a title made unique. */
module DotTables {
  import opened Text
  import opened Collections
  import opened Properties
  import opened Sorting
  import opened DotNames
  import opened DotModel

  // Columns: the flat properties that are used, then the others in order. Information has no column.

  function Used(keys: set<string>, ordered: seq<string>): seq<string>
  {
    if ordered == [] then []
    else if ordered[0] in keys then [ordered[0]] + Used(keys, ordered[1..])
    else Used(keys, ordered[1..])
  }

  function OtherKeys(keys: set<string>): set<string>
  {
    set k | k in keys && k !in FLAT_PROPERTIES && k != INFORMATION
  }

  // The columns of a table whose fields have these keys; there is exactly one such sequence.
  ghost predicate IsColumns(keys: set<string>, columns: seq<string>)
  {
    var flat := Used(keys, FLAT_PROPERTIES);
    flat <= columns && SortsTo(OtherKeys(keys), columns[|flat|..])
  }

  function KeysOf(fields: seq<Field>): set<string> { set f | f in fields :: f.key }

  // The cell of a key: the last value wins.

  function LastValue(fields: seq<Field>, key: string): (c: Cell)
    ensures c.Value? ==> Field(key, c.value) in fields
    ensures c == Blank <==> key !in KeysOf(fields)
  {
    if fields == [] then Blank
    else if fields[|fields| - 1].key == key then Value(fields[|fields| - 1].value)
    else
      assert fields == fields[..|fields| - 1] + [fields[|fields| - 1]];
      LastValue(fields[..|fields| - 1], key)
  }

  function CellsOf(fields: seq<Field>, columns: seq<string>): (cells: seq<Cell>)
    ensures |cells| == |columns|
  {
    seq(|columns|, i requires 0 <= i < |columns| => LastValue(fields, columns[i]))
  }

  // The text of the information fields, else the title of the object.

  function TextOf(v: Term): string
  {
    match v case Link(uri) => uri case Literal(text) => text case Nothing => ""
  }

  function Information(fields: seq<Field>): string
  {
    if fields == [] then "" else
      var f := fields[|fields| - 1];
      Information(fields[..|fields| - 1]) + if f.key == INFORMATION then TextOf(f.value) else ""
  }

  function RowTitle(g: Graph, x: Term): string
  {
    var info := Information(g.Fields(x));
    if info != "" then info else g.titles(x)
  }

  // Unique titles: the title itself, else the first free of "title/2", "title/3"...

  ghost predicate IsUnique(taken: set<string>, title: string, unique: string)
  {
    && unique !in taken
    && if title !in taken then unique == title
       else exists i: nat :: i >= 2 && IsFirstFree(taken, title, unique, i)
  }

  ghost predicate IsFirstFree(taken: set<string>, title: string, unique: string, i: nat)
  {
    unique == Numbered(title, i) && forall j: nat :: 2 <= j < i ==> Numbered(title, j) in taken
  }

  lemma IsUniqueOnce(taken: set<string>, title: string, u: string, v: string)
    requires IsUnique(taken, title, u) && IsUnique(taken, title, v)
    ensures u == v
  {
    if title in taken {
      var i: nat :| i >= 2 && IsFirstFree(taken, title, u, i);
      var j: nat :| j >= 2 && IsFirstFree(taken, title, v, j);
      assert i == j;
    }
  }

  // rows is what the loop over the objects leaves in the dictionary of the lines
  ghost predicate IsRows(g: Graph, objs: seq<Term>, columns: seq<string>, rows: map<string, Row>)
  {
    if objs == [] then rows == map[] else
      var x := objs[|objs| - 1];
      exists before: map<string, Row>, unique: string ::
        IsRows(g, objs[..|objs| - 1], columns, before) && AddsRow(g, x, columns, before, unique, rows)
  }

  ghost predicate AddsRow(g: Graph, x: Term, columns: seq<string>, before: map<string, Row>, unique: string, rows: map<string, Row>)
  {
    IsUnique(before.Keys, RowTitle(g, x), unique) && rows == before[unique := LineOf(g, x, columns)]
  }

  function LineOf(g: Graph, x: Term, columns: seq<string>): Row
  {
    Line(g.Label(x), RowTitle(g, x), CellsOf(g.Fields(x), columns))
  }

  ghost function KeysOfAll(g: Graph, objs: seq<Term>): set<string>
  {
    if objs == [] then {} else KeysOfAll(g, objs[..|objs| - 1]) + KeysOf(g.Fields(objs[|objs| - 1]))
  }

  lemma {:induction false} KeysOfOne(g: Graph, objs: seq<Term>, i: nat)
    requires i < |objs|
    ensures KeysOf(g.Fields(objs[i])) <= KeysOfAll(g, objs)
  {
    if i < |objs| - 1 {
      KeysOfOne(g, objs[..|objs| - 1], i);
    }
  }

  // The table statement of a subject; the header takes the empty title, so that it is sorted first.
  ghost predicate IsTable(g: Graph, prop: string, subj: Term, t: Stmt)
  {
    && t.Table?
    && t.name == g.TableOf(prop, subj)
    && IsColumns(KeysOfAll(g, g.Rows(prop, subj)), t.columns)
    && exists rows: map<string, Row> :: IsRows(g, g.Rows(prop, subj), t.columns, rows) && t.rows == rows["" := Header(t.columns)]
  }

  // ---- what the rows satisfy ----

  ghost predicate HasLine(rows: map<string, Row>, line: Row) { exists title :: title in rows && rows[title] == line }

  ghost predicate HasPort(rows: map<string, Row>, port: string)
  {
    exists title :: title in rows && rows[title].Line? && rows[title].port == port
  }

  lemma LineStays(rows: map<string, Row>, line: Row, title: string, other: Row)
    requires HasLine(rows, line) && title !in rows
    ensures HasLine(rows[title := other], line)
  {
    var t :| t in rows && rows[t] == line;
    var after := rows[title := other];
    assert t in after && after[t] == line;
  }

  lemma LineAdded(rows: map<string, Row>, title: string, line: Row)
    ensures HasLine(rows[title := line], line)
  {
    var after := rows[title := line];
    assert title in after && after[title] == line;
  }

  lemma UniqueIsEmpty(taken: set<string>, title: string, unique: string)
    requires IsUnique(taken, title, unique)
    ensures unique == "" <==> title == "" && "" !in taken
  {
  }

  // No object overwrites the row of another one.
  lemma {:induction false} RowsKept(g: Graph, objs: seq<Term>, columns: seq<string>, rows: map<string, Row>)
    requires IsRows(g, objs, columns, rows)
    ensures |rows| == |objs|
    ensures forall x :: x in objs ==> HasLine(rows, LineOf(g, x, columns))
    ensures "" in rows <==> exists x :: x in objs && RowTitle(g, x) == ""
  {
    if objs != [] {
      var last, rest := objs[|objs| - 1], objs[..|objs| - 1];
      assert forall x :: x in objs <==> x in rest || x == last;
      var before: map<string, Row>, unique: string :|
        IsRows(g, rest, columns, before) && AddsRow(g, last, columns, before, unique, rows);
      RowsKept(g, rest, columns, before);
      LineAdded(before, unique, LineOf(g, last, columns));
      UniqueIsEmpty(before.Keys, RowTitle(g, last), unique);
      forall x | x in rest ensures HasLine(rows, LineOf(g, x, columns)) {
        LineStays(before, LineOf(g, x, columns), unique, LineOf(g, last, columns));
      }
    }
  }

  // The first object with an empty title, or the end.
  function FirstUntitled(g: Graph, objs: seq<Term>): (i: nat)
    ensures i <= |objs|
    ensures forall k :: 0 <= k < i ==> RowTitle(g, objs[k]) != ""
    ensures i < |objs| ==> RowTitle(g, objs[i]) == ""
  {
    if objs == [] || RowTitle(g, objs[0]) == "" then 0 else 1 + FirstUntitled(g, objs[1..])
  }

  lemma FirstUntitledOfInit(g: Graph, objs: seq<Term>)
    requires objs != []
    ensures
      var n := |objs| - 1;
      FirstUntitled(g, objs) == if FirstUntitled(g, objs[..n]) < n then FirstUntitled(g, objs[..n]) else if RowTitle(g, objs[n]) == "" then n else n + 1
  {
    var n := |objs| - 1;
    assert forall k :: 0 <= k < n ==> objs[..n][k] == objs[k];
  }

  function Labels(g: Graph, objs: seq<Term>): (r: seq<string>)
    ensures |r| == |objs|
  {
    seq(|objs|, k requires 0 <= k < |objs| => g.Label(objs[k]))
  }

  // A place of the sequence, but one, holds this element.
  ghost predicate HoldsBut(s: seq<string>, but: nat, x: string) { exists i :: 0 <= i < |s| && i != but && s[i] == x }

  lemma HoldsButAfter(s: seq<string>, but: nat, last: string, after: nat, x: string)
    requires but <= |s| && after <= |s| + 1 && (but < |s| ==> after == but) && (but == |s| ==> after >= but)
    ensures HoldsBut(s + [last], after, x) <==> HoldsBut(s, but, x) || (after != |s| && last == x)
  {
    var more := s + [last];
    assert more[|s|] == last;
    if HoldsBut(s, but, x) {
      var i :| 0 <= i < |s| && i != but && s[i] == x;
      assert more[i] == x && i != after;
    }
    if HoldsBut(more, after, x) {
      var i :| 0 <= i < |more| && i != after && more[i] == x;
      assert i < |s| ==> s[i] == x && i != but;
    }
  }

  // Some object but the first one without a title has this label.
  ghost predicate PortIsKept(g: Graph, objs: seq<Term>, port: string)
  {
    HoldsBut(Labels(g, objs), FirstUntitled(g, objs), port)
  }

  ghost predicate HasTitledPort(rows: map<string, Row>, port: string)
  {
    exists title :: title in rows && title != "" && rows[title].Line? && rows[title].port == port
  }

  lemma {:induction false} RowPorts(g: Graph, objs: seq<Term>, columns: seq<string>, rows: map<string, Row>, port: string)
    requires IsRows(g, objs, columns, rows)
    ensures HasTitledPort(rows, port) <==> PortIsKept(g, objs, port)
  {
    if objs != [] {
      var n := |objs| - 1;
      var last, rest := objs[n], objs[..n];
      var before: map<string, Row>, unique: string :|
        IsRows(g, rest, columns, before) && AddsRow(g, last, columns, before, unique, rows);
      RowPorts(g, rest, columns, before, port);
      RowsKept(g, rest, columns, before);
      UniqueIsEmpty(before.Keys, RowTitle(g, last), unique);
      FirstUntitledOfInit(g, objs);
      FirstUntitledIs(g, rest);
      TitledPortAfter(before, unique, LineOf(g, last, columns), port);
      PortIsKeptAfter(g, objs, port);
    }
  }

  lemma FirstUntitledIs(g: Graph, objs: seq<Term>)
    ensures FirstUntitled(g, objs) < |objs| <==> exists x :: x in objs && RowTitle(g, x) == ""
  {
  }

  lemma TitledPortAfter(before: map<string, Row>, unique: string, line: Row, port: string)
    requires unique !in before && line.Line?
    ensures HasTitledPort(before[unique := line], port) <==> HasTitledPort(before, port) || (unique != "" && line.port == port)
  {
    var after := before[unique := line];
    if HasTitledPort(before, port) {
      var title :| title in before && title != "" && before[title].Line? && before[title].port == port;
      assert title in after && after[title] == before[title];
    }
    assert unique in after && after[unique] == line;
  }

  lemma PortIsKeptAfter(g: Graph, objs: seq<Term>, port: string)
    requires objs != []
    ensures
      var n := |objs| - 1;
      PortIsKept(g, objs, port) <==> PortIsKept(g, objs[..n], port) || (FirstUntitled(g, objs) != n && g.Label(objs[n]) == port)
  {
    var n := |objs| - 1;
    FirstUntitledOfInit(g, objs);
    HoldsButAfter(Labels(g, objs[..n]), FirstUntitled(g, objs[..n]), g.Label(objs[n]), FirstUntitled(g, objs), port);
    LabelsOfLast(g, objs);
  }

  lemma LabelsOfLast(g: Graph, objs: seq<Term>)
    requires objs != []
    ensures Labels(g, objs) == Labels(g, objs[..|objs| - 1]) + [g.Label(objs[|objs| - 1])]
  {
  }

  // The ports of a table are those of all its objects, but the first one without a title.
  lemma TablePorts(g: Graph, prop: string, subj: Term, t: Stmt, port: string)
    requires IsTable(g, prop, subj, t)
    ensures HasPort(t.rows, port) <==> PortIsKept(g, g.Rows(prop, subj), port)
  {
    var objs := g.Rows(prop, subj);
    var rows: map<string, Row> :| IsRows(g, objs, t.columns, rows) && t.rows == rows["" := Header(t.columns)];
    RowPorts(g, objs, t.columns, rows, port);
    assert t.rows[""].Header?;
    if HasTitledPort(rows, port) {
      var title :| title in rows && title != "" && rows[title].Line? && rows[title].port == port;
      assert title in t.rows && t.rows[title] == rows[title];
    }
    if HasPort(t.rows, port) {
      var title :| title in t.rows && t.rows[title].Line? && t.rows[title].port == port;
      assert title in rows && rows[title] == t.rows[title];
    }
  }

  // Each line is the one of an object.
  lemma {:induction false} RowsAreLines(g: Graph, objs: seq<Term>, columns: seq<string>, rows: map<string, Row>, title: string) returns (x: Term)
    requires IsRows(g, objs, columns, rows) && title in rows
    ensures x in objs && rows[title] == LineOf(g, x, columns)
  {
    var n := |objs| - 1;
    var before: map<string, Row>, unique: string :|
      IsRows(g, objs[..n], columns, before) && AddsRow(g, objs[n], columns, before, unique, rows);
    x := objs[n];
    if title != unique {
      x := RowsAreLines(g, objs[..n], columns, before, title);
    }
  }

  lemma TableLine(g: Graph, prop: string, subj: Term, t: Stmt, title: string) returns (x: Term)
    requires IsTable(g, prop, subj, t) && title in t.rows && t.rows[title].Line?
    ensures x in g.Rows(prop, subj) && t.rows[title] == LineOf(g, x, t.columns)
  {
    var objs := g.Rows(prop, subj);
    var rows: map<string, Row> :| IsRows(g, objs, t.columns, rows) && t.rows == rows["" := Header(t.columns)];
    x := RowsAreLines(g, objs, t.columns, rows, title);
  }

  // The header replaces a row exactly when some object has an empty title.
  lemma TableRowCount(g: Graph, prop: string, subj: Term, t: Stmt)
    requires IsTable(g, prop, subj, t)
    ensures
      var objs := g.Rows(prop, subj);
      |t.rows| == |objs| + if exists x :: x in objs && RowTitle(g, x) == "" then 0 else 1
  {
    var objs := g.Rows(prop, subj);
    var rows: map<string, Row> :| IsRows(g, objs, t.columns, rows) && t.rows == rows["" := Header(t.columns)];
    RowsKept(g, objs, t.columns, rows);
  }

  // With no empty title, the table has the line of every object that is listed.
  lemma TableHasEveryLine(g: Graph, prop: string, subj: Term, t: Stmt, x: Term)
    requires IsTable(g, prop, subj, t)
    requires forall y :: y in g.Rows(prop, subj) ==> RowTitle(g, y) != ""
    requires x in g.Rows(prop, subj)
    ensures HasLine(t.rows, LineOf(g, x, t.columns)) && HasPort(t.rows, g.Label(x))
  {
    var objs := g.Rows(prop, subj);
    var rows: map<string, Row> :| IsRows(g, objs, t.columns, rows) && t.rows == rows["" := Header(t.columns)];
    RowsKept(g, objs, t.columns, rows);
    var title :| title in rows && rows[title] == LineOf(g, x, t.columns);
    assert title in t.rows && t.rows[title] == rows[title];
  }

  // ---- what the columns satisfy ----

  lemma InformationIsNotFlat()
    ensures INFORMATION !in FLAT_PROPERTIES
  {
    assert forall i :: 0 <= i < 3 ==> FLAT_PROPERTIES[i][|PRIMNS|] == 'D';
    assert INFORMATION[|PRIMNS|] == '-';
  }

  lemma FlatAreDistinct()
    ensures NoDup(FLAT_PROPERTIES)
  {
    var n := |PRIMNS|;
    assert FLAT_PROPERTIES[0][n + 4] == '1' && FLAT_PROPERTIES[1][n + 4] == '2' && FLAT_PROPERTIES[2][n + 4] == '3';
  }

  lemma {:induction false} UsedIs(keys: set<string>, ordered: seq<string>)
    ensures forall k :: k in Used(keys, ordered) <==> k in ordered && k in keys
    ensures NoDup(ordered) ==> NoDup(Used(keys, ordered))
  {
    if ordered != [] {
      UsedIs(keys, ordered[1..]);
      assert forall k :: k in ordered <==> k == ordered[0] || k in ordered[1..];
      if NoDup(ordered) {
        assert ordered[0] !in ordered[1..];
        var rest := ordered[1..];
        assert forall i :: 0 <= i < |rest| ==> rest[i] == ordered[i + 1];
      }
    }
  }

  lemma AscendingIsNoDup(s: seq<string>)
    requires Ascending(s)
    ensures NoDup(s)
  {
    forall i, j | 0 <= i < j < |s| ensures s[i] != s[j] {
      LessTrichotomy(s[i], s[j]);
    }
  }

  // Every key but the information has one column and only one.
  lemma ColumnsAreTheKeys(keys: set<string>, columns: seq<string>)
    requires IsColumns(keys, columns)
    ensures NoDup(columns)
    ensures forall k :: k in columns <==> k in keys && k != INFORMATION
  {
    var flat := Used(keys, FLAT_PROPERTIES);
    var rest := columns[|flat|..];
    assert columns == flat + rest;
    UsedIs(keys, FLAT_PROPERTIES);
    FlatAreDistinct();
    AscendingIsNoDup(rest);
    InformationIsNotFlat();
    assert forall k :: k in columns <==> k in flat || k in rest;
    assert forall i, j :: 0 <= i < |flat| && 0 <= j < |rest| ==> flat[i] in flat && rest[j] in rest;
  }

  // The flat properties come first: no other column precedes them.
  lemma FlatColumnsComeFirst(keys: set<string>, columns: seq<string>, i: nat, j: nat)
    requires IsColumns(keys, columns)
    requires i < j < |columns|
    requires columns[j] in FLAT_PROPERTIES
    ensures columns[i] in FLAT_PROPERTIES
  {
    var flat := Used(keys, FLAT_PROPERTIES);
    UsedIs(keys, FLAT_PROPERTIES);
    var rest := columns[|flat|..];
    assert forall k :: |flat| <= k < |columns| ==> columns[k] == rest[k - |flat|] && rest[k - |flat|] in rest;
    assert flat[i] in flat && columns[i] == flat[i];
  }

  lemma HeadIn(s: seq<string>)
    ensures s != [] ==> s[0] in s
  {
  }

  // The layout does not depend on the order in which the fields were met.
  lemma {:induction false} SortIsUnique(keys: set<string>, a: seq<string>, b: seq<string>)
    requires SortsTo(keys, a) && SortsTo(keys, b)
    ensures a == b
    decreases |a|
  {
    if a == [] {
      HeadIn(b);
    } else {
      assert a[0] in keys;
      assert b != [];
      assert a[0] == b[0] by {
        var i :| 0 <= i < |b| && b[i] == a[0];
        assert b[0] in keys;
        var j :| 0 <= j < |a| && a[j] == b[0];
        LessTrichotomy(a[0], b[0]);
      }
      AscendingIsNoDup(a);
      AscendingIsNoDup(b);
      TailSortsTo(keys, a);
      TailSortsTo(keys, b);
      SortIsUnique(keys - {a[0]}, a[1..], b[1..]);
    }
  }

  lemma TailSortsTo(keys: set<string>, a: seq<string>)
    requires SortsTo(keys, a) && a != []
    ensures SortsTo(keys - {a[0]}, a[1..])
  {
    AscendingIsNoDup(a);
    var rest := a[1..];
    assert forall i :: 0 <= i < |rest| ==> rest[i] == a[i + 1];
    assert forall k :: k in a <==> k == a[0] || k in rest;
  }

  // A row shows a value under its key when no later field of the object has this key.
  lemma CellShowsLastValue(fields: seq<Field>, columns: seq<string>, i: nat, c: nat)
    requires i < |fields| && c < |columns| && columns[c] == fields[i].key
    requires forall j :: i < j < |fields| ==> fields[j].key != fields[i].key
    ensures CellsOf(fields, columns)[c] == Value(fields[i].value)
  {
    LastValueIs(fields, i);
  }

  lemma {:induction false} LastValueIs(fields: seq<Field>, i: nat)
    requires i < |fields|
    requires forall j :: i < j < |fields| ==> fields[j].key != fields[i].key
    ensures LastValue(fields, fields[i].key) == Value(fields[i].value)
  {
    if i < |fields| - 1 {
      LastValueIs(fields[..|fields| - 1], i);
    }
  }
}
