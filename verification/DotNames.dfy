/** The names Rdf2Dot invents: node labels `nd_i`, tables `R_p_nd_i` and ports
    `R_p_nd_i:nd_j`. Nothing in the program checks that they are distinct; here it is proved. */
module DotNames {
  import opened Text
  import opened Properties

  // lib_exports.PropToShortPropNam
  function ShortPropName(prop: string): string
  {
    var parts := Split(prop, '/');
    var short := ReplaceChar(ReplaceChar(parts[|parts| - 1], '.', '_'), ' ', '_');
    if SORT_PREFIX <= short then short[|SORT_PREFIX|..] else short
  }

  function NodeLabel(i: nat): string { "nd_" + Decimal(i) }

  function TableName(prop: string, node: string): string { "R_" + prop + "_" + node }

  function PortName(table: string, node: string): string { table + ":" + node }

  // Numbered titles, "Title/2", "Title/3"
  function Numbered(title: string, i: nat): string { title + "/" + Decimal(i) }

  // Where a character occurs last, a string splits in one way only.
  lemma SuffixUnique(a: string, x: string, b: string, y: string, c: char)
    requires a + [c] + x == b + [c] + y
    requires c !in x && c !in y
    ensures a == b && x == y
  {
    var s := a + [c] + x;
    RFindAt(a, c, x);
    RFindAt(b, c, y);
    assert a == s[..|a|] && x == s[|a| + 1..];
    assert b == s[..|b|] && y == s[|b| + 1..];
  }

  lemma DecimalHasNo(i: nat, c: char)
    requires c < '0' || '9' < c
    ensures c !in Decimal(i)
  {
  }

  lemma NodeLabelInjective(i: nat, j: nat)
    requires NodeLabel(i) == NodeLabel(j)
    ensures i == j
  {
    assert Decimal(i) == NodeLabel(i)[3..] == Decimal(j);
    DecimalInjective(i, j);
  }

  lemma NodeLabelHasNoColon(i: nat)
    ensures ':' !in NodeLabel(i)
  {
    DecimalHasNo(i, ':');
  }

  lemma TableNameInjective(p: string, i: nat, q: string, j: nat)
    requires TableName(p, NodeLabel(i)) == TableName(q, NodeLabel(j))
    ensures p == q && i == j
  {
    DecimalHasNo(i, '_');
    DecimalHasNo(j, '_');
    var a, b := "R_" + p + "_nd", "R_" + q + "_nd";
    assert TableName(p, NodeLabel(i)) == a + ['_'] + Decimal(i);
    assert TableName(q, NodeLabel(j)) == b + ['_'] + Decimal(j);
    SuffixUnique(a, Decimal(i), b, Decimal(j), '_');
    DecimalInjective(i, j);
    assert p == a[2..|a| - 3] == b[2..|b| - 3] == q;
  }

  lemma PortNameInjective(t: string, i: nat, u: string, j: nat)
    requires PortName(t, NodeLabel(i)) == PortName(u, NodeLabel(j))
    ensures t == u && i == j
  {
    NodeLabelHasNoColon(i);
    NodeLabelHasNoColon(j);
    assert PortName(t, NodeLabel(i)) == t + [':'] + NodeLabel(i);
    assert PortName(u, NodeLabel(j)) == u + [':'] + NodeLabel(j);
    SuffixUnique(t, NodeLabel(i), u, NodeLabel(j), ':');
    NodeLabelInjective(i, j);
  }

  lemma TableNameIsNotPort(p: string, i: nat, t: string, j: nat)
    ensures TableName(p, NodeLabel(i)) != PortName(t, NodeLabel(j))
  {
    var a, b := "R_" + p + "_nd", t + ":nd";
    assert TableName(p, NodeLabel(i)) == a + ['_'] + Decimal(i);
    assert PortName(t, NodeLabel(j)) == b + ['_'] + Decimal(j);
    DecimalHasNo(i, '_');
    DecimalHasNo(j, '_');
    assert a[|a| - 3] == '_' && b[|b| - 3] == ':';
    if TableName(p, NodeLabel(i)) == PortName(t, NodeLabel(j)) {
      SuffixUnique(a, Decimal(i), b, Decimal(j), '_');
    }
  }

  lemma NumberedInjective(title: string, i: nat, j: nat)
    requires Numbered(title, i) == Numbered(title, j)
    ensures i == j
  {
    assert Decimal(i) == Numbered(title, i)[|title| + 1..] == Decimal(j);
    DecimalInjective(i, j);
  }
}
