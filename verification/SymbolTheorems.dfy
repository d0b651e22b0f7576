/** What lib_symbol gives for a printed C++ type: its classes, in preorder. */
module SymbolTheorems {
  import opened Text
  import opened Collections
  import opened Symbols

  // A type: Name<arguments>tail const*&
  datatype CppType = CppType(name: string, args: Template, tail: string, isConst: bool, pointers: string)
  datatype Template = Plain | Templated(list: seq<CppType>)

  function Base(t: CppType): string
    decreases t, 0
  {
    match t.args
    case Plain => t.name
    case Templated(list) => t.name + "<" + Join(PrintAll(list), ",") + ">" + t.tail
  }

  function Print(t: CppType): string
    decreases t, 1
  {
    Base(t) + (if t.isConst then CONST else "") + t.pointers
  }

  function PrintAll(list: seq<CppType>): (r: seq<string>)
    ensures |r| == |list|
    decreases list
  {
    if list == [] then [] else [Print(list[0])] + PrintAll(list[1..])
  }

  predicate AllOf(s: string, chars: string) { forall c :: c in s ==> c in chars }

  // Names without brackets or commas; nothing at the end of the base looks like a qualifier.
  ghost predicate WellFormed(t: CppType)
    decreases t, 0
  {
    && t.name != "" && Without(t.name, "<>,") && Without(t.tail, "<>,")
    && (t.args.Plain? ==> t.tail == "")
    && AllOf(t.pointers, "*&")
    && Base(t)[|Base(t)| - 1] !in "*&" && !EndsWith(Base(t), CONST)
    && (t.args.Templated? ==> AllWellFormed(t.args.list))
  }

  ghost predicate AllWellFormed(list: seq<CppType>)
    decreases list
  {
    list != [] ==> WellFormed(list[0]) && AllWellFormed(list[1..])
  }

  // The classes a type is made of: itself unless it is scalar, then those of its arguments.
  function Preorder(t: CppType): seq<string>
    decreases t, 0
  {
    if Base(t) in SCALARS then [] else [Base(t)] + if t.args.Plain? then [] else PreorderAll(t.args.list)
  }

  function PreorderAll(list: seq<CppType>): seq<string>
    decreases list
  {
    if list == [] then [] else Preorder(list[0]) + PreorderAll(list[1..])
  }

  // ---- top_level_split undoes a join ----

  datatype Level = Level(n: int) | Cut

  // The bracket level after s, or Cut when a comma is met at level zero.
  function Scan(s: string, n: int): Level
  {
    if s == "" then Level(n)
    else if s[0] == ',' && n == 0 then Cut
    else Scan(s[1..], LevelAfter(s[0], "<", ">", n))
  }

  lemma {:induction false} ScanConcat(a: string, b: string, n: int)
    ensures Scan(a + b, n) == if Scan(a, n).Cut? then Cut else Scan(b, Scan(a, n).n)
  {
    if a == "" {
      assert a + b == b;
    } else {
      assert (a + b)[1..] == a[1..] + b;
      ScanConcat(a[1..], b, LevelAfter(a[0], "<", ">", n));
    }
  }

  lemma {:induction false} SplitSkips(part: string, rest: string, n: int, current: string)
    requires Scan(part, n).Level?
    ensures SplitFrom(part + rest, ",", "<", ">", n, current) ==
      SplitFrom(rest, ",", "<", ">", Scan(part, n).n, current + part)
  {
    if part == "" {
      assert part + rest == rest && current + part == current;
    } else {
      assert (part + rest)[1..] == part[1..] + rest;
      assert current + part == (current + [part[0]]) + part[1..];
      SplitSkips(part[1..], rest, LevelAfter(part[0], "<", ">", n), current + [part[0]]);
    }
  }

  ghost predicate Balanced(part: string) { part != "" && Scan(part, 0) == Level(0) }

  lemma {:induction false} SplitOfJoin(parts: seq<string>)
    requires parts != [] && forall p :: p in parts ==> Balanced(p)
    ensures TopSplit(Join(parts, ","), ",", "<", ">") == parts
    ensures SplitFrom(Join(parts, ","), ",", "<", ">", 0, "") == parts
  {
    var p := parts[0];
    assert p in parts;
    assert "" + p == p;
    if |parts| == 1 {
      assert p + "" == p;
      SplitSkips(p, "", 0, "");
    } else {
      var rest := Join(parts[1..], ",");
      assert Join(parts, ",") == p + ("," + rest);
      SplitSkips(p, "," + rest, 0, "");
      assert ("," + rest)[1..] == rest;
      SplitOfJoin(parts[1..]);
      assert parts == [p] + parts[1..];
    }
  }

  // ---- printed types are balanced ----

  lemma {:induction false} ScanFlat(s: string, n: int)
    requires Without(s, "<>,")
    ensures Scan(s, n) == Level(n)
  {
    if s != "" {
      ScanFlat(s[1..], n);
    }
  }

  lemma {:induction false} ScanPrint(t: CppType, n: nat)
    requires WellFormed(t)
    ensures Scan(Print(t), n) == Level(n)
    decreases t, 2
  {
    ScanBase(t, n);
    ScanFlat(CONST, n);
    assert forall k :: 0 <= k < |t.pointers| ==> t.pointers[k] in t.pointers;
    ScanFlat(t.pointers, n);
    ScanConcat(Base(t) + (if t.isConst then CONST else ""), t.pointers, n);
    ScanConcat(Base(t), if t.isConst then CONST else "", n);
  }

  lemma {:induction false} ScanBase(t: CppType, n: nat)
    requires WellFormed(t)
    ensures Scan(Base(t), n) == Level(n)
    decreases t, 1
  {
    ScanFlat(t.name, n);
    if t.args.Templated? {
      var inside := Join(PrintAll(t.args.list), ",");
      ScanPrints(t.args.list, n + 1);
      ScanFlat(t.tail, n);
      ScanAround(t.name, inside, t.tail, n);
    }
  }

  lemma ScanAround(name: string, inside: string, tail: string, n: nat)
    requires Scan(name, n) == Level(n) && Scan(inside, n + 1) == Level(n + 1) && Scan(tail, n) == Level(n)
    ensures Scan(name + "<" + inside + ">" + tail, n) == Level(n)
  {
    ScanConcat(name + "<" + inside + ">", tail, n);
    ScanConcat(name + "<" + inside, ">", n);
    ScanConcat(name + "<", inside, n);
    ScanConcat(name, "<", n);
    assert ">"[1..] == "" && "<"[1..] == "";
  }

  lemma {:induction false} ScanPrints(list: seq<CppType>, n: nat)
    requires AllWellFormed(list) && n > 0
    ensures Scan(Join(PrintAll(list), ","), n) == Level(n)
    decreases list, 0
  {
    if list != [] {
      var rest := Join(PrintAll(list[1..]), ",");
      ScanPrint(list[0], n);
      ScanPrints(list[1..], n);
      if |list| > 1 {
        assert PrintAll(list)[1..] == PrintAll(list[1..]);
        ScanConcat(Print(list[0]) + ",", rest, n);
        ScanConcat(Print(list[0]), ",", n);
        assert ","[1..] == "";
      }
    }
  }

  lemma BaseIsNotEmpty(t: CppType)
    requires WellFormed(t)
    ensures Base(t) != "" && Print(t) != ""
  {
  }

  lemma {:induction false} PrintsAreBalanced(list: seq<CppType>)
    requires AllWellFormed(list)
    ensures forall p :: p in PrintAll(list) ==> Balanced(p)
  {
    if list != [] {
      ScanPrint(list[0], 0);
      BaseIsNotEmpty(list[0]);
      PrintsAreBalanced(list[1..]);
    }
  }

  // ---- the qualifiers come off ----

  lemma {:induction false} PointersComeOff(text: string, pointers: string)
    requires text != "" && text[|text| - 1] !in "*&" && AllOf(pointers, "*&")
    ensures StripPointers(text + pointers) == Kept(text)
  {
    var s := text + pointers;
    if pointers == "" {
      assert s == text;
    } else {
      var init := pointers[..|pointers| - 1];
      assert s[|s| - 1] == pointers[|pointers| - 1] && pointers[|pointers| - 1] in pointers;
      assert s[..|s| - 1] == text + init;
      assert forall c :: c in init ==> c in pointers;
      PointersComeOff(text, init);
    }
  }

  lemma QualifiersComeOff(t: CppType)
    requires WellFormed(t)
    ensures StripPointers(Print(t)).Kept? && StripConst(StripPointers(Print(t)).text) == Base(t)
  {
    var text := Base(t) + if t.isConst then CONST else "";
    if t.isConst {
      assert text[|text| - 1] == 't';
      assert text[|text| - |CONST|..] == CONST && text[..|text| - |CONST|] == Base(t);
    } else {
      assert text == Base(t);
    }
    PointersComeOff(text, t.pointers);
  }

  // ---- the template arguments are those printed ----

  lemma FindName(name: string, rest: string)
    requires Without(name, "<")
    ensures Find(name + "<" + rest, '<') == |name|
  {
    assert '<' !in name;
    IndexOfAt(name, '<', rest);
    assert name + "<" + rest == name + ['<'] + rest;
  }

  lemma ArgumentsAreFound(t: CppType)
    requires WellFormed(t) && t.args.Templated?
    ensures Find(Base(t), '<') == |t.name|
    ensures TemplateArguments(Base(t)) == Join(PrintAll(t.args.list), ",")
  {
    var inside := Join(PrintAll(t.args.list), ",");
    var before := t.name + "<";
    assert Base(t) == before + inside + ">" + t.tail by {
      Associative(before, inside, ">");
    }
    Associative(before + inside, ">", t.tail);
    Associative(before, inside, ">" + t.tail);
    FindName(t.name, inside + (">" + t.tail));
    assert '>' !in t.tail;
    RFindAt(before + inside, '>', t.tail);
    Between(before, inside, ">" + t.tail);
  }

  lemma Between(before: string, inside: string, after: string)
    ensures (before + (inside + after))[|before|..|before| + |inside|] == inside
  {
  }

  lemma PlainHasNoBracket(t: CppType)
    requires WellFormed(t) && t.args.Plain?
    ensures Find(Base(t), '<') == -1
  {
    assert '<' !in t.name;
  }

  // ---- the main result ----

  // Extraction appends the classes of the type, in preorder, and never fails.
  lemma {:induction false} ExtractionIsPreorder(t: CppType, list: seq<string>)
    requires WellFormed(t)
    ensures ExtractType(list, Print(t)) == Classes(list + Preorder(t))
    decreases t, 1
  {
    BaseIsNotEmpty(t);
    QualifiersComeOff(t);
    var base := Base(t);
    if base in SCALARS {
      assert list + [] == list;
    } else if t.args.Plain? {
      PlainHasNoBracket(t);
      assert [base] + [] == [base];
    } else {
      ArgumentsAreFound(t);
      ArgumentsExtraction(t, list + [base]);
      Regroup(list, [base], PreorderAll(t.args.list));
    }
  }

  lemma {:induction false} ArgumentsExtraction(t: CppType, list: seq<string>)
    requires WellFormed(t) && t.args.Templated? && Find(Base(t), '<') == |t.name|
    requires TemplateArguments(Base(t)) == Join(PrintAll(t.args.list), ",")
    ensures ExtractTemplated(list, Base(t)) == Classes(list + PreorderAll(t.args.list))
    decreases t, 0
  {
    var args := t.args.list;
    if args == [] {
      NoArgument(list, |Base(t)|);
      assert list + [] == list;
    } else {
      PrintsAreBalanced(args);
      SplitOfJoin(PrintAll(args));
      AllExtraction(args, list, |Base(t)|);
    }
  }

  lemma NoArgument(list: seq<string>, bound: nat)
    requires bound > 0
    ensures ExtractAll(list, TopSplit("", ",", "<", ">"), bound) == Classes(list)
  {
    assert TopSplit("", ",", "<", ">") == [""];
    assert [""][1..] == [];
  }

  lemma {:induction false} AllExtraction(args: seq<CppType>, list: seq<string>, bound: nat)
    requires AllWellFormed(args) && forall p :: p in PrintAll(args) ==> |p| < bound
    ensures ExtractAll(list, PrintAll(args), bound) == Classes(list + PreorderAll(args))
    decreases args, 0
  {
    if args == [] {
      assert list + [] == list;
    } else {
      var prints := PrintAll(args);
      assert prints[0] == Print(args[0]) && prints[1..] == PrintAll(args[1..]);
      assert forall p :: p in prints[1..] ==> p in prints;
      ExtractionIsPreorder(args[0], list);
      AllExtraction(args[1..], list + Preorder(args[0]), bound);
      Regroup(list, Preorder(args[0]), PreorderAll(args[1..]));
    }
  }

  // ---- SymToArgs ----

  // The index argument of find_closing_delimiter is reset: unless the symbol starts with a
  // parenthesis, the arguments start at the first one, even after "operator()".
  lemma FirstParenthesis(sym: string)
    requires sym != "" && sym[0] != '(' && sym[0] != ')'
    ensures FindArgumentsStart(sym) == Find(sym, '(')
  {
    assert FindClosing(sym, '(', ')') == 0;
    assert sym[0..] == sym;
  }

  // Arguments as a demangler prints them: a space after each comma.
  function Spaced(prints: seq<string>): (r: seq<string>)
    ensures |r| == |prints|
    ensures forall i :: 0 <= i < |r| ==> r[i] == if i == 0 then prints[i] else " " + prints[i]
  {
    seq(|prints|, i requires 0 <= i < |prints| => if i == 0 then prints[i] else " " + prints[i])
  }

  predicate Tight(s: string) { s != "" && !IsSpace(s[0]) && !IsSpace(s[|s| - 1]) }

  function PrintSymbol(name: string, types: seq<CppType>, trailing: string): string
  {
    name + "(" + Join(Spaced(PrintAll(types)), ",") + ")" + trailing
  }

  lemma SpacedAreBalanced(prints: seq<string>)
    requires forall p :: p in prints ==> Balanced(p)
    ensures forall p :: p in Spaced(prints) ==> Balanced(p)
  {
    forall i | 0 <= i < |prints| ensures Balanced(Spaced(prints)[i]) {
      assert prints[i] in prints;
      assert (" " + prints[i])[1..] == prints[i];
    }
  }

  lemma StripSpaced(prints: seq<string>)
    requires forall p :: p in prints ==> Tight(p)
    ensures StripAll(Spaced(prints)) == prints
  {
    forall i | 0 <= i < |prints| ensures Strip(Spaced(prints)[i]) == prints[i] {
      assert prints[i] in prints;
      assert (" " + prints[i])[1..] == prints[i];
    }
  }

  lemma InsideParentheses(name: string, inside: string, trailing: string)
    requires name != "" && name[0] != ')' && '(' !in name && ')' !in trailing
    ensures
      var sym := name + "(" + inside + ")" + trailing;
      FindArgumentsStart(sym) == |name| && sym[..|name|] == name && Slice(sym, |name| + 1, RFind(sym, ')')) == inside
  {
    var sym := name + "(" + inside + ")" + trailing;
    Associative(name + "(", inside, ")" + trailing);
    Associative(name + "(" + inside, ")", trailing);
    var rest := inside + (")" + trailing);
    assert sym == name + ['('] + rest;
    IndexOfAt(name, '(', rest);
    assert sym[0] == name[0] && name[0] in name;
    FirstParenthesis(sym);
    assert sym == (name + "(" + inside) + [')'] + trailing;
    RFindAt(name + "(" + inside, ')', trailing);
    assert sym[|name| + 1..|name| + 1 + |inside|] == inside;
  }

  // A printed function symbol gives back its name and its arguments.
  lemma SymbolRoundTrip(name: string, types: seq<CppType>, trailing: string)
    requires name != "" && name[0] != ')' && '(' !in name && ')' !in trailing
    requires AllWellFormed(types) && forall p :: p in PrintAll(types) ==> Tight(p)
    ensures SymToArgs(PrintSymbol(name, types, trailing)) == (name, Arguments(PrintAll(types)))
  {
    var prints := PrintAll(types);
    var inside := Join(Spaced(prints), ",");
    InsideParentheses(name, inside, trailing);
    SymToArgsIs(PrintSymbol(name, types, trailing), name, inside);
    if types != [] {
      ArgumentsAreSplit(types);
    }
  }

  lemma SymToArgsIs(sym: string, name: string, inside: string)
    requires FindArgumentsStart(sym) == |name| && sym[..|name|] == name && Slice(sym, |name| + 1, RFind(sym, ')')) == inside
    ensures SymToArgs(sym) == (name, Arguments(if inside == "" then [] else StripAll(TopSplit(inside, ",", "<", ">"))))
  {
  }

  lemma ArgumentsAreSplit(types: seq<CppType>)
    requires types != [] && AllWellFormed(types) && forall p :: p in PrintAll(types) ==> Tight(p)
    ensures
      var inside := Join(Spaced(PrintAll(types)), ",");
      inside != "" && StripAll(TopSplit(inside, ",", "<", ">")) == PrintAll(types)
  {
    var prints := PrintAll(types);
    PrintsAreBalanced(types);
    SpacedAreBalanced(prints);
    SplitOfJoin(Spaced(prints));
    StripSpaced(prints);
    JoinStarts(Spaced(prints));
    assert prints[0] in prints;
  }

  lemma JoinStarts(parts: seq<string>)
    requires parts != []
    ensures |Join(parts, ",")| >= |parts[0]|
  {
  }

  // ---- types which are printed with a space after each comma ----

  function LooseBase(t: CppType): string
    decreases t, 0
  {
    match t.args
    case Plain => t.name
    case Templated(list) => t.name + "<" + Join(LooseAll(list), ", ") + ">" + t.tail
  }

  function PrintLoose(t: CppType): string
    decreases t, 1
  {
    LooseBase(t) + (if t.isConst then CONST else "") + t.pointers
  }

  function LooseAll(list: seq<CppType>): (r: seq<string>)
    ensures |r| == |list|
    decreases list
  {
    if list == [] then [] else [PrintLoose(list[0])] + LooseAll(list[1..])
  }

  // The spaces are stripped from the arguments of a function, not from those of a template: an argument which
  // is not the first one keeps its space, so it is collected even when it is scalar.
  function Collected(t: CppType, first: bool): seq<string>
    decreases t, 0
  {
    if first && LooseBase(t) in SCALARS then []
    else [Space(first) + LooseBase(t)] + if t.args.Plain? then [] else CollectedAll(t.args.list, true)
  }

  function CollectedAll(list: seq<CppType>, first: bool): seq<string>
    decreases list
  {
    if list == [] then [] else Collected(list[0], first) + CollectedAll(list[1..], false)
  }

  function Space(first: bool): string { if first then "" else " " }

  // The same text, as the parser sees it: the space is a part of the name.
  function Respaced(t: CppType, first: bool): CppType
    decreases t, 0
  {
    t.(name := Space(first) + t.name, args := if t.args.Plain? then Plain else Templated(RespacedAll(t.args.list, true)))
  }

  function RespacedAll(list: seq<CppType>, first: bool): (r: seq<CppType>)
    ensures |r| == |list|
    decreases list
  {
    if list == [] then [] else [Respaced(list[0], first)] + RespacedAll(list[1..], false)
  }

  lemma {:induction false} BaseOfRespaced(t: CppType, first: bool)
    ensures Base(Respaced(t, first)) == Space(first) + LooseBase(t)
    decreases t, 0
  {
    if t.args.Templated? {
      JoinOfRespaced(t.args.list, true);
      var inside := Join(LooseAll(t.args.list), ", ");
      assert "" + inside == inside;
      Associative(Space(first), t.name, "<");
      Associative(Space(first), t.name + "<", inside);
      Associative(Space(first), t.name + "<" + inside, ">");
      Associative(Space(first), t.name + "<" + inside + ">", t.tail);
    }
  }

  lemma {:induction false} PrintOfRespaced(t: CppType, first: bool)
    ensures Print(Respaced(t, first)) == Space(first) + PrintLoose(t)
    decreases t, 1
  {
    BaseOfRespaced(t, first);
    Associative(Space(first), LooseBase(t), if t.isConst then CONST else "");
    Associative(Space(first), LooseBase(t) + (if t.isConst then CONST else ""), t.pointers);
  }

  lemma {:induction false} JoinOfRespaced(list: seq<CppType>, first: bool)
    ensures list != [] ==> Join(PrintAll(RespacedAll(list, first)), ",") == Space(first) + Join(LooseAll(list), ", ")
    decreases list
  {
    if list != [] {
      var others := RespacedAll(list[1..], false);
      PrintOfRespaced(list[0], first);
      JoinOfRespaced(list[1..], false);
      assert ([Respaced(list[0], first)] + others)[1..] == others;
      if list[1..] != [] {
        JoinCons(Print(Respaced(list[0], first)), PrintAll(others), ",");
        JoinCons(PrintLoose(list[0]), LooseAll(list[1..]), ", ");
        CommaSpace(Space(first), PrintLoose(list[0]), Join(LooseAll(list[1..]), ", "));
      } else {
        assert [Print(Respaced(list[0], first))] + PrintAll([]) == [Print(Respaced(list[0], first))];
        assert [PrintLoose(list[0])] + LooseAll([]) == [PrintLoose(list[0])];
      }
    }
  }

  lemma CommaSpace(before: string, text: string, more: string)
    ensures before + text + "," + (" " + more) == before + (text + ", " + more)
  {
  }

  lemma {:induction false} PreorderOfRespaced(t: CppType, first: bool)
    ensures Preorder(Respaced(t, first)) == Collected(t, first)
    decreases t, 0
  {
    BaseOfRespaced(t, first);
    NoScalarStartsWithSpace(LooseBase(t));
    assert "" + LooseBase(t) == LooseBase(t);
    if t.args.Templated? {
      PreorderOfRespacedAll(t.args.list, true);
    }
  }

  lemma {:induction false} PreorderOfRespacedAll(list: seq<CppType>, first: bool)
    ensures PreorderAll(RespacedAll(list, first)) == CollectedAll(list, first)
    decreases list
  {
    if list != [] {
      var others := RespacedAll(list[1..], false);
      assert ([Respaced(list[0], first)] + others)[1..] == others;
      PreorderOfRespaced(list[0], first);
      PreorderOfRespacedAll(list[1..], false);
    }
  }

  lemma NoScalarStartsWithSpace(s: string)
    ensures " " + s !in SCALARS
  {
    assert (" " + s)[0] == ' ';
    assert forall t :: t in SCALARS ==> t[0] != ' ';
  }

  // Extraction of such a type: exactly what is collected, in preorder.
  lemma LooseExtraction(t: CppType, list: seq<string>)
    requires WellFormed(Respaced(t, true))
    ensures ExtractType(list, PrintLoose(t)) == Classes(list + Collected(t, true))
  {
    PrintOfRespaced(t, true);
    assert "" + PrintLoose(t) == PrintLoose(t);
    PreorderOfRespaced(t, true);
    ExtractionIsPreorder(Respaced(t, true), list);
  }

  // What is appended for a scalar argument of a template, among what is appended for the others: nothing if and only if
  // it is the first argument.
  lemma ScalarIsCollectedUnlessFirst(t: CppType, i: nat, list: seq<string>)
    requires WellFormed(Respaced(t, true)) && t.args.Templated? && i < |t.args.list|
    requires t.args.list[i].args.Plain? && t.args.list[i].name in SCALARS
    ensures
      var arguments := t.args.list;
      ExtractType(list, PrintLoose(t)) == Classes(list + ([LooseBase(t)] +
        (CollectedAll(arguments[..i], true) + (if i == 0 then [] else [" " + arguments[i].name]) + CollectedAll(arguments[i + 1..], false))))
  {
    var scalar := t.args.list[i];
    LooseExtraction(t, list);
    TemplateIsNoScalar(t);
    assert "" + LooseBase(t) == LooseBase(t);
    CollectedAt(t.args.list, true, i);
    assert [" " + scalar.name] + [] == [" " + scalar.name];
  }

  lemma TemplateIsNoScalar(t: CppType)
    requires t.args.Templated?
    ensures LooseBase(t) !in SCALARS
  {
    assert LooseBase(t)[|t.name|] == '<';
    if LooseBase(t) in SCALARS {
      NoBracketInScalars(LooseBase(t));
    }
  }

  lemma {:induction false} CollectedAt(list: seq<CppType>, first: bool, i: nat)
    requires i < |list|
    ensures CollectedAll(list, first) ==
      CollectedAll(list[..i], first) + Collected(list[i], first && i == 0) + CollectedAll(list[i + 1..], false)
  {
    if i == 0 {
      assert CollectedAll(list[..0], first) == [];
    } else {
      CollectedAt(list[1..], false, i - 1);
      assert list[1..][..i - 1] == list[..i][1..] && list[1..][i..] == list[i + 1..];
      Regroup(Collected(list[0], first), CollectedAll(list[..i][1..], false), Collected(list[i], false));
      Regroup(Collected(list[0], first), CollectedAll(list[..i][1..], false) + Collected(list[i], false), CollectedAll(list[i + 1..], false));
    }
  }

  lemma SpacedScalarIsAClass(s: string, list: seq<string>)
    requires s in SCALARS
    ensures ExtractType(list, " " + s) == Classes(list + [" " + s])
  {
    var t := CppType(" " + s, Plain, "", false, "");
    ScalarsArePlain(s);
    NoScalarStartsWithSpace(s);
    assert Print(t) == " " + s;
    assert [" " + s] + [] == [" " + s];
    ExtractionIsPreorder(t, list);
  }

  lemma NoBracketInScalars(s: string)
    requires s in SCALARS
    ensures '<' !in s && '>' !in s && ',' !in s
  {
    NoCommaInScalars(s);
    NoClosingInScalars(s);
  }

  lemma NoCommaInScalars(s: string)
    requires s in SCALARS
    ensures ',' !in s
  {
  }

  lemma NoClosingInScalars(s: string)
    requires s in SCALARS
    ensures '>' !in s
  {
  }

  lemma ScalarsEnd(s: string)
    requires s in SCALARS
    ensures |s| >= 3 && s[|s| - 1] !in "*&" && !(s[|s| - 2] == 's' && s[|s| - 1] == 't')
  {
  }

  lemma ScalarsArePlain(s: string)
    requires s in SCALARS
    ensures Without(" " + s, "<>,") && s != "" && s[|s| - 1] !in "*&" && !EndsWith(" " + s, CONST)
  {
    NoBracketInScalars(s);
    ScalarsEnd(s);
    var t := " " + s;
    assert forall k :: 0 <= k < |t| ==> k == 0 || t[k] == s[k - 1];
    assert forall c :: c in t ==> c == ' ' || c in s;
    assert |t| >= 6 ==> CONST[4] == 's' && t[|t| - 6..][4] == t[|t| - 2] && CONST[5] == 't' && t[|t| - 6..][5] == t[|t| - 1];
  }
}
