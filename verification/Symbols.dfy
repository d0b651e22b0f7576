/** lib_symbol: splitting demangled C++ symbols, and collecting the classes of their types. */
module Symbols {
  import opened Text
  import opened Collections

  // ---- Python's find, rfind and slices, with -1 when nothing is found ----

  function Find(s: string, c: char): (i: int)
    ensures -1 <= i < |s|
    ensures i >= 0 ==> s[i] == c && c !in s[..i]
    ensures i < 0 <==> c !in s
  {
    var i := IndexOf(s, c); if i == |s| then -1 else i
  }

  // A negative start counts from the end.
  function FindFrom(s: string, c: char, start: int): (i: int)
    ensures -1 <= i < |s|
    ensures i >= 0 ==> s[i] == c
  {
    var from := if start >= 0 then start else if start + |s| >= 0 then start + |s| else 0;
    if from > |s| then -1 else
      var i := IndexOf(s[from..], c); if from + i == |s| then -1 else from + i
  }

  function Slice(s: string, a: nat, b: int): (r: string)
    ensures |r| <= |s|
    ensures a > 0 && s != "" ==> |r| < |s|
  {
    var end := if b >= 0 then b else if b + |s| >= 0 then b + |s| else 0;
    var stop := if end > |s| then |s| else end;
    if a >= stop then "" else s[a..stop]
  }

  // ---- top_level_split ----

  function LevelAfter(ch: char, open: string, close: string, level: int): int
  {
    if ch in open then level + 1 else if ch in close then level - 1 else level
  }

  function Flush(current: string): seq<string> { if current == "" then [] else [current] }

  function SplitFrom(s: string, delim: string, open: string, close: string, level: int, current: string): (parts: seq<string>)
    requires delim != ""
    ensures forall p :: p in parts ==> |p| <= |current| + |s|
  {
    if s == "" then Flush(current)
    else if delim <= s && level == 0 then Flush(current) + SplitFrom(s[|delim|..], delim, open, close, 0, "")
    else SplitFrom(s[1..], delim, open, close, LevelAfter(s[0], open, close, level), current + [s[0]])
  }

  function TopSplit(s: string, delim: string, open: string, close: string): (parts: seq<string>)
    requires delim != ""
    ensures parts != [] && forall p :: p in parts ==> |p| <= |s|
  {
    var parts := SplitFrom(s, delim, open, close, 0, "");
    if parts == [] then [""] else parts
  }

  method TopLevelSplit(instr: string, delim: string, open: string, close: string) returns (parts: seq<string>)
    requires delim != ""
    ensures parts == TopSplit(instr, delim, open, close)
  {
    parts := [];
    var level, current, idx := 0, "", 0;
    ghost var whole := SplitFrom(instr, delim, open, close, 0, "");
    assert instr[0..] == instr;
    while idx < |instr|
      invariant 0 <= idx <= |instr|
      invariant whole == parts + SplitFrom(instr[idx..], delim, open, close, level, current)
    {
      SplitStep(instr, idx, delim, open, close, level, current);
      if delim <= instr[idx..] && level == 0 {
        Regroup(parts, Flush(current), SplitFrom(instr[idx + |delim|..], delim, open, close, 0, ""));
        parts := parts + Flush(current);
        current := "";
        idx := idx + |delim|;
      } else {
        level := LevelAfter(instr[idx], open, close, level);
        current := current + [instr[idx]];
        idx := idx + 1;
      }
    }
    parts := parts + Flush(current);
    if parts == [] {
      parts := [""];
    }
  }

  lemma SplitStep(s: string, idx: nat, delim: string, open: string, close: string, level: int, current: string)
    requires delim != "" && idx < |s|
    ensures SplitFrom(s[idx..], delim, open, close, level, current) ==
      if delim <= s[idx..] && level == 0 then Flush(current) + SplitFrom(s[idx + |delim|..], delim, open, close, 0, "")
      else SplitFrom(s[idx + 1..], delim, open, close, LevelAfter(s[idx], open, close, level), current + [s[idx]])
  {
    var rest := s[idx..];
    assert rest[1..] == s[idx + 1..];
    if delim <= rest {
      assert rest[|delim|..] == s[idx + |delim|..];
    }
  }

  // ---- extraction ----

  const SCALARS := {
    "bool", "short", "unsigned short", "int", "unsigned int", "long", "unsigned long",
    "long long", "unsigned long long", "float", "double" }

  const CONST := " const"

  // The trailing stars and ampersands are removed; a string made of nothing else has no last character.
  datatype Stripped = Kept(text: string) | NoLastCharacter

  function StripPointers(cls: string): (r: Stripped)
    ensures r.Kept? ==> |r.text| <= |cls|
  {
    if cls == "" then NoLastCharacter
    else if cls[|cls| - 1] in "*&" then StripPointers(cls[..|cls| - 1])
    else Kept(cls)
  }

  datatype Outcome = Classes(list: seq<string>) | IndexError

  function StripConst(cls: string): (r: string)
    ensures |r| <= |cls|
  {
    if EndsWith(cls, CONST) then cls[..|cls| - |CONST|] else cls
  }

  function ExtractType(list: seq<string>, cls: string): Outcome
    decreases |cls|, 2
  {
    if cls == "" then Classes(list)
    else
      match StripPointers(cls)
      case NoLastCharacter => IndexError
      case Kept(text) =>
        var base := StripConst(text);
        if base in SCALARS then Classes(list) else ExtractTemplated(list + [base], base)
  }

  function TemplateArguments(cls: string): (r: string)
    requires Find(cls, '<') > 0
    ensures |r| < |cls|
  {
    Slice(cls, Find(cls, '<') + 1, RFind(cls, '>'))
  }

  function ExtractTemplated(list: seq<string>, cls: string): Outcome
    decreases |cls|, 1
  {
    if Find(cls, '<') <= 0 then Classes(list)
    else
      var parts := TopSplit(TemplateArguments(cls), ",", "<", ">");
      ExtractAll(list, parts, |cls|)
  }

  function ExtractAll(list: seq<string>, parts: seq<string>, bound: nat): Outcome
    requires forall p :: p in parts ==> |p| < bound
    decreases bound, 0, |parts|
  {
    if parts == [] then Classes(list)
    else
      match ExtractType(list, parts[0])
      case IndexError => IndexError
      case Classes(more) => ExtractAll(more, parts[1..], bound)
  }

  // The list which the recursion fills in place.
  class ClassList {
    var items: seq<string>

    constructor ()
      ensures items == []
    {
      items := [];
    }

    // ok is false where the program fails on an index.
    method ExtractClassesFromType(cls: string) returns (ok: bool)
      modifies this
      ensures ok <==> ExtractType(old(items), cls).Classes?
      ensures ok ==> ExtractType(old(items), cls) == Classes(items)
      decreases |cls|, 2
    {
      if cls == "" {
        return true;
      }
      var text := cls;
      while text != "" && text[|text| - 1] in "*&"
        invariant |text| <= |cls| && StripPointers(text) == StripPointers(cls)
        decreases |text|
      {
        text := text[..|text| - 1];
      }
      ExtractKept(items, cls, text);
      if text == "" {
        return false;
      }
      if EndsWith(text, CONST) {
        text := text[..|text| - |CONST|];
      }
      if text in SCALARS {
        return true;
      }
      items := items + [text];
      ok := ExtractTemplatedClassesFromToken(text);
    }

    method ExtractTemplatedClassesFromToken(cls: string) returns (ok: bool)
      modifies this
      ensures ok <==> ExtractTemplated(old(items), cls).Classes?
      ensures ok ==> ExtractTemplated(old(items), cls) == Classes(items)
      decreases |cls|, 1
    {
      var bracketFirst := Find(cls, '<');
      if bracketFirst <= 0 {
        return true;
      }
      var tmplArgs := TopLevelSplit(Slice(cls, bracketFirst + 1, RFind(cls, '>')), ",", "<", ">");
      ok := ExtractFromAll(tmplArgs, |cls|);
    }

    // Each of the template arguments.
    method ExtractFromAll(tmplArgs: seq<string>, ghost bound: nat) returns (ok: bool)
      requires forall p :: p in tmplArgs ==> |p| < bound
      modifies this
      ensures ok <==> ExtractAll(old(items), tmplArgs, bound).Classes?
      ensures ok ==> ExtractAll(old(items), tmplArgs, bound) == Classes(items)
      decreases bound, 0
    {
      ghost var whole := ExtractAll(items, tmplArgs, bound);
      assert tmplArgs[0..] == tmplArgs;
      for i := 0 to |tmplArgs|
        invariant whole == ExtractAll(items, tmplArgs[i..], bound)
      {
        ExtractAllAt(items, tmplArgs, i, bound);
        ok := ExtractClassesFromType(tmplArgs[i]);
        if !ok {
          return false;
        }
      }
      ok := true;
    }
  }

  // Once the last characters of a pointer are removed.
  lemma ExtractKept(list: seq<string>, cls: string, text: string)
    requires cls != "" && StripPointers(text) == StripPointers(cls) && (text != "" ==> text[|text| - 1] !in "*&")
    ensures ExtractType(list, cls) ==
      if text == "" then IndexError
      else
        var base := StripConst(text);
        if base in SCALARS then Classes(list) else ExtractTemplated(list + [base], base)
  {
  }

  lemma ExtractAllAt(list: seq<string>, parts: seq<string>, i: nat, bound: nat)
    requires i < |parts| && forall p :: p in parts ==> |p| < bound
    ensures ExtractAll(list, parts[i..], bound) ==
      match ExtractType(list, parts[i])
      case IndexError => IndexError
      case Classes(more) => ExtractAll(more, parts[i + 1..], bound)
  {
    assert parts[i..][0] == parts[i] && parts[i..][1..] == parts[i + 1..];
  }

  // ---- SymToArgs ----

  // find_closing_delimiter; its index argument is reset to zero.
  function FindClosing(s: string, open: char, close: char): (r: int)
    ensures -1 <= r < |s|
  {
    ClosingFrom(s, 0, 0, open, close)
  }

  function ClosingFrom(s: string, idx: nat, level: int, open: char, close: char): (r: int)
    requires idx <= |s|
    ensures -1 <= r < |s|
    decreases |s| - idx
  {
    if idx == |s| then -1
    else
      var l := LevelAfter(s[idx], [open], [close], level);
      if l == 0 then idx else ClosingFrom(s, idx + 1, l, open, close)
  }

  method FindClosingDelimiter(instr: string, idx: int, open: char, close: char) returns (r: int)
    requires open != close
    ensures r == FindClosing(instr, open, close)
  {
    var level, i := 0, 0;
    while i < |instr|
      invariant 0 <= i <= |instr|
      invariant ClosingFrom(instr, i, level, open, close) == FindClosing(instr, open, close)
    {
      var ch := instr[i];
      if ch == open {
        level := level + 1;
      } else if ch == close {
        level := level - 1;
      }
      if level == 0 {
        return i;
      }
      i := i + 1;
    }
    return -1;
  }

  function FindArgumentsStart(sym: string): (i: int)
    ensures -1 <= i < |sym|
  {
    var second := FindFrom(sym, '(', FindClosing(sym, '(', ')'));
    if second >= 0 then second else Find(sym, '(')
  }

  datatype Arguments = Singleton | Arguments(list: seq<string>)

  function SymToArgs(sym: string): (string, Arguments)
  {
    var first := FindArgumentsStart(sym);
    if first < 0 then (sym, Singleton)
    else
      var inside := Slice(sym, first + 1, RFind(sym, ')'));
      (sym[..first], Arguments(if inside == "" then [] else StripAll(TopSplit(inside, ",", "<", ">"))))
  }

  function StripAll(parts: seq<string>): (r: seq<string>)
    ensures |r| == |parts|
    ensures forall i :: 0 <= i < |r| ==> r[i] == Strip(parts[i])
  {
    seq(|parts|, i requires 0 <= i < |parts| => Strip(parts[i]))
  }
}
