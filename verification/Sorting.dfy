/** sorted() on a set of strings. */
module Sorting {
  import opened Text

  ghost predicate Ascending(s: seq<string>) { forall i, j :: 0 <= i < j < |s| ==> Less(s[i], s[j]) }

  ghost predicate SortsTo(keys: set<string>, s: seq<string>) { Ascending(s) && forall k :: k in s <==> k in keys }

  // sorted() of a set
  method SortKeys(keys: set<string>) returns (s: seq<string>)
    ensures SortsTo(keys, s)
  {
    s := [];
    var left := keys;
    while left != {}
      invariant left <= keys
      invariant SortsTo(keys - left, s)
      decreases left
    {
      var k :| k in left;
      left := left - {k};
      s := Insert(s, k);
    }
  }

  method Insert(s: seq<string>, k: string) returns (r: seq<string>)
    requires Ascending(s) && k !in s
    ensures Ascending(r)
    ensures forall x :: x in r <==> x in s || x == k
  {
    var i := 0;
    while i < |s| && Less(s[i], k)
      invariant 0 <= i <= |s|
      invariant forall j :: 0 <= j < i ==> Less(s[j], k)
    {
      i := i + 1;
    }
    r := s[..i] + [k] + s[i..];
    if i < |s| {
      LessTrichotomy(s[i], k);
      forall j | i < j < |s| ensures Less(k, s[j]) {
        LessTransitive(k, s[i], s[j]);
      }
    }
    assert s == s[..i] + s[i..];
  }

  // list.sort(key=...), which keeps the order of equal keys
  ghost predicate SortedBy(s: seq<string>, key: string -> string)
  {
    forall i, j :: 0 <= i < j < |s| ==> !Less(key(s[j]), key(s[i]))
  }

  method SortBy(items: seq<string>, key: string -> string) returns (s: seq<string>)
    ensures multiset(s) == multiset(items) && SortedBy(s, key)
  {
    s := [];
    for i := 0 to |items|
      invariant multiset(s) == multiset(items[..i]) && SortedBy(s, key)
    {
      assert items[..i + 1] == items[..i] + [items[i]];
      s := InsertBy(s, items[i], key);
    }
    assert items[..|items|] == items;
  }

  method InsertBy(s: seq<string>, x: string, key: string -> string) returns (r: seq<string>)
    requires SortedBy(s, key)
    ensures multiset(r) == multiset(s) + multiset{x} && SortedBy(r, key)
  {
    var k := 0;
    while k < |s| && !Less(key(x), key(s[k]))
      invariant 0 <= k <= |s|
      invariant forall j :: 0 <= j < k ==> !Less(key(x), key(s[j]))
    {
      k := k + 1;
    }
    InsertedBy(s, k, x, key);
    assert s == s[..k] + s[k..];
    r := s[..k] + [x] + s[k..];
  }

  lemma InsertedBy(s: seq<string>, k: nat, x: string, key: string -> string)
    requires SortedBy(s, key) && k <= |s| && (forall j :: 0 <= j < k ==> !Less(key(x), key(s[j])))
    requires k < |s| ==> Less(key(x), key(s[k]))
    ensures SortedBy(s[..k] + [x] + s[k..], key)
  {
    forall j | k <= j < |s| ensures !Less(key(s[j]), key(x)) {
      if j == k { LessTrichotomy(key(x), key(s[k])); } else { LessOrEqual(key(x), key(s[k]), key(s[j])); }
    }
    var r := s[..k] + [x] + s[k..];
    forall i, j | 0 <= i < j < |r| ensures !Less(key(r[j]), key(r[i])) {
      assert r[i] == (if i < k then s[i] else if i == k then x else s[i - 1]);
      assert r[j] == (if j < k then s[j] else if j == k then x else s[j - 1]);
    }
  }

  lemma LessOrEqual(a: string, b: string, c: string)
    requires Less(a, b) && !Less(c, b)
    ensures Less(a, c) && !Less(c, a)
  {
    LessTrichotomy(b, c);
    if b != c { LessTransitive(a, b, c); }
    LessTrichotomy(a, c);
  }
}
