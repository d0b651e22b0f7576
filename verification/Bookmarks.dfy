/** lib_bookmark: the recursive reader of a bookmark file, on one shared cursor. */
module Bookmarks {
  import opened Text

  // ---- the tag of a line: [^<]*<([^ \t>]*)[^>]*>(.*)\n ----

  function TagAndRest(line: string): (string, string)
  {
    var lt := IndexOf(line, '<');
    if lt == |line| then ("", "")
    else
      var inside := line[lt + 1..];
      var gt := IndexOf(inside, '>');
      if gt == |inside| then ("", "")
      else
        var after := inside[gt + 1..];
        var eol := IndexOf(after, '\n');
        if eol == |after| then ("", "") else (inside[..Span(inside, " \t>")], after[..eol])
  }

  // ---- a complete tag: <TAG([^>]*)>([^<]*)</TAG> ----

  datatype Attributes = Attributes(dict: map<string, string>) | NoTag | Failure

  const LABEL := "name"

  function Unquoted(value: string): string
  {
    if |value| == 1 && value[0] == '"' then ""
    else if |value| >= 2 && value[0] == '"' && value[|value| - 1] == '"' then value[1..|value| - 1]
    else value
  }

  // key=value pairs; an empty value has no first character.
  function ParseAttributes(parts: seq<string>): Attributes
  {
    if parts == [] then Attributes(map[])
    else
      match ParseAttributes(parts[..|parts| - 1])
      case Failure => Failure
      case NoTag => NoTag
      case Attributes(before) =>
        var part := parts[|parts| - 1];
        var eq := IndexOf(part, '=');
        if eq == 0 || eq == |part| then Attributes(before)
        else if eq == |part| - 1 then Failure
        else Attributes(before[part[..eq] := Unquoted(part[eq + 1..])])
  }

  function CompleteTag(tag: string, rest: string): Attributes
  {
    var open := "<" + tag;
    if open <= rest then TagBody("</" + tag + ">", rest[|open|..]) else NoTag
  }

  // The attributes, the title, then the closing tag.
  function TagBody(close: string, s: string): Attributes
  {
    var gt := IndexOf(s, '>');
    if gt == |s| then NoTag else TagTitle(close, s[..gt], s[gt + 1..])
  }

  function TagTitle(close: string, content: string, t: string): Attributes
  {
    var lt := IndexOf(t, '<');
    if !(close <= t[lt..]) then NoTag
    else
      match ParseAttributes(Split(content, ' '))
      case Failure => Failure
      case NoTag => NoTag
      case Attributes(dict) => Attributes(dict[LABEL := t[..lt]])
  }

  // ---- the reader ----

  // A Python dictionary, whose children are kept apart; or None, for a DT line which is not understood.
  datatype Entry = Entry(dict: map<string, string>, children: seq<seq<Entry>>) | NoEntry

  datatype Outcome = Done(entries: seq<Entry>, rest: seq<string>) | Failed

  const ROOT := Entry(map[LABEL := "ROOT"], [])

  function SetChildren(e: Entry, children: seq<Entry>): Entry
    requires e.Entry?
  {
    Entry(e.dict - {"children"}, [children])
  }

  function SetDescription(e: Entry, text: string): Entry
    requires e.Entry?
  {
    e.(dict := e.dict["description" := text])
  }

  function EntryOf(rest: string): (r: Attributes)
  {
    var link := CompleteTag("A", rest);
    if link.NoTag? then CompleteTag("H3", rest) else link
  }

  function AddEntry(arr: seq<Entry>, parsed: Attributes): seq<Entry>
    requires !parsed.Failure?
  {
    arr + [if parsed.Attributes? then Entry(parsed.dict, []) else NoEntry]
  }

  function ReplaceLast(arr: seq<Entry>, e: Entry): seq<Entry>
    requires arr != []
  {
    arr[..|arr| - 1] + [e]
  }

  datatype LineResult = Next(entries: seq<Entry>) | Crash

  // A line which is neither the start nor the end of a list.
  function ReadLine(arr: seq<Entry>, tag: string, rest: string): LineResult
  {
    if tag == "DT" then
      if EntryOf(rest).Failure? then Crash else Next(AddEntry(arr, EntryOf(rest)))
    else if tag == "DD" && Strip(rest) != "" then
      if arr == [] || arr[|arr| - 1].NoEntry? then Crash
      else Next(ReplaceLast(arr, SetDescription(arr[|arr| - 1], Strip(rest))))
    else Next(arr)
  }

  // The children of a list go to the entry before it.
  function Attach(arr: seq<Entry>, children: seq<Entry>): LineResult
  {
    var arr1 := if arr == [] then [ROOT] else arr;
    var last := arr1[|arr1| - 1];
    if last.NoEntry? then Crash else Next(ReplaceLast(arr1, SetChildren(last, children)))
  }

  // The entries of the lines up to the closing tag, after those already read.
  function Import(lines: seq<string>, arr: seq<Entry>): (r: Outcome)
    ensures r.Done? ==> |r.rest| <= |lines|
    decreases |lines|
  {
    if lines == [] then Done(arr, [])
    else
      var (tag, rest) := TagAndRest(lines[0]);
      if tag == "DL" then
        match Import(lines[1..], [])
        case Failed => Failed
        case Done(children, after) =>
          match Attach(arr, children)
          case Crash => Failed
          case Next(arr1) => Import(after, arr1)
      else if tag == "/DL" then Done(arr, lines[1..])
      else
        match ReadLine(arr, tag, rest)
        case Crash => Failed
        case Next(arr1) => Import(lines[1..], arr1)
  }

  // What follows the list of children which was just read.
  function AfterList(children: Outcome, arr: seq<Entry>): (r: Outcome)
  {
    match children
    case Failed => Failed
    case Done(entries, after) =>
      match Attach(arr, entries)
      case Crash => Failed
      case Next(arr1) => Import(after, arr1)
  }

  function AfterLine(r: LineResult, lines: seq<string>): Outcome
  {
    match r case Crash => Failed case Next(arr) => Import(lines, arr)
  }

  lemma ImportAt(lines: seq<string>, p: nat, arr: seq<Entry>)
    requires p < |lines|
    ensures Import(lines[p..], arr) ==
      var (tag, rest) := TagAndRest(lines[p]);
      if tag == "DL" then AfterList(Import(lines[p + 1..], []), arr)
      else if tag == "/DL" then Done(arr, lines[p + 1..])
      else AfterLine(ReadLine(arr, tag, rest), lines[p + 1..])
  {
    assert lines[p..][1..] == lines[p + 1..];
  }

  // A list of children was read, up to q.
  lemma ImportList(lines: seq<string>, p: nat, q: nat, arr: seq<Entry>, sub: seq<Entry>)
    requires p < |lines| && q <= |lines| && TagAndRest(lines[p]).0 == "DL"
    requires Import(lines[p + 1..], []) == Done(sub, lines[q..])
    ensures Import(lines[p..], arr) == AfterLine(Attach(arr, sub), lines[q..])
  {
    ImportAt(lines, p, arr);
  }

  lemma ImportEnd(lines: seq<string>, p: nat, arr: seq<Entry>)
    requires p < |lines| && TagAndRest(lines[p]).0 == "/DL"
    ensures Import(lines[p..], arr) == Done(arr, lines[p + 1..])
  {
    ImportAt(lines, p, arr);
  }

  lemma ImportLine(lines: seq<string>, p: nat, arr: seq<Entry>)
    requires p < |lines| && TagAndRest(lines[p]).0 != "DL" && TagAndRest(lines[p]).0 != "/DL"
    ensures Import(lines[p..], arr) == AfterLine(ReadLine(arr, TagAndRest(lines[p]).0, TagAndRest(lines[p]).1), lines[p + 1..])
  {
    ImportAt(lines, p, arr);
  }

  lemma ImportNoList(lines: seq<string>, p: nat, arr: seq<Entry>)
    requires p < |lines| && TagAndRest(lines[p]).0 == "DL" && Import(lines[p + 1..], []).Failed?
    ensures Import(lines[p..], arr) == Failed
  {
    ImportAt(lines, p, arr);
  }

  class Reader {
    const lines: seq<string>
    var pos: nat

    constructor (lines: seq<string>)
      ensures this.lines == lines && pos == 0
    {
      this.lines := lines;
      pos := 0;
    }

    // DT and DD lines change the list of the entries; any other line is skipped.
    method OneLine(arr: seq<Entry>, tag: string, rest: string) returns (ok: bool, arrChildren: seq<Entry>)
      ensures ReadLine(arr, tag, rest) == if ok then Next(arrChildren) else Crash
    {
      arrChildren := arr;
      if tag == "DT" {
        var parsed := CompleteTag("A", rest);
        if parsed.NoTag? {
          parsed := CompleteTag("H3", rest);
        }
        if parsed.Failure? {
          return false, [];
        }
        arrChildren := AddEntry(arrChildren, parsed);
      } else if tag == "DD" {
        var description := Strip(rest);
        if description != "" {
          if arrChildren == [] || arrChildren[|arrChildren| - 1].NoEntry? {
            return false, [];
          }
          arrChildren := ReplaceLast(arrChildren, SetDescription(arrChildren[|arrChildren| - 1], description));
        }
      }
      ok := true;
    }

    method AttachChildren(arr: seq<Entry>, subArray: seq<Entry>) returns (ok: bool, arrChildren: seq<Entry>)
      ensures Attach(arr, subArray) == if ok then Next(arrChildren) else Crash
    {
      arrChildren := arr;
      if arrChildren == [] {
        arrChildren := [ROOT];
      }
      var last := arrChildren[|arrChildren| - 1];
      if last.NoEntry? {
        return false, [];
      }
      return true, ReplaceLast(arrChildren, SetChildren(last, subArray));
    }

    // All the levels of the recursion advance the same cursor.
    method ImportChildren(level: nat) returns (ok: bool, arrChildren: seq<Entry>)
      requires pos <= |lines|
      modifies this
      ensures old(pos) <= pos <= |lines|
      ensures Import(lines[old(pos)..], []) == if ok then Done(arrChildren, lines[pos..]) else Failed
      decreases |lines| - pos, 0
    {
      arrChildren := [];
      ghost var whole := Import(lines[pos..], []);
      while pos < |lines|
        invariant old(pos) <= pos <= |lines|
        invariant whole == Import(lines[pos..], arrChildren)
        decreases |lines| - pos
      {
        ghost var p := pos;
        var tag := TagAndRest(lines[pos]).0;
        var rest := TagAndRest(lines[pos]).1;
        pos := pos + 1;
        if tag == "/DL" {
          ImportEnd(lines, p, arrChildren);
          return true, arrChildren;
        }
        ok, arrChildren := ImportOther(level, arrChildren, tag, rest, p);
        if !ok {
          return false, [];
        }
      }
      ok := true;
    }

    // Any line which is not the end of a list.
    method ImportOther(level: nat, arr: seq<Entry>, tag: string, rest: string, ghost p: nat) returns (ok: bool, arrChildren: seq<Entry>)
      requires pos == p + 1 <= |lines| && TagAndRest(lines[p]) == (tag, rest) && tag != "/DL"
      modifies this
      ensures old(pos) <= pos <= |lines|
      ensures Import(lines[p..], arr) == if ok then Import(lines[pos..], arrChildren) else Failed
      decreases |lines| - pos, 2
    {
      if tag == "DL" {
        ok, arrChildren := ImportSubList(level, arr, p);
      } else {
        ImportLine(lines, p, arr);
        ok, arrChildren := OneLine(arr, tag, rest);
      }
    }

    // The children of a list, which go to the entry before it.
    method ImportSubList(level: nat, arr: seq<Entry>, ghost p: nat) returns (ok: bool, arrChildren: seq<Entry>)
      requires pos == p + 1 <= |lines| && TagAndRest(lines[p]).0 == "DL"
      modifies this
      ensures old(pos) <= pos <= |lines|
      ensures Import(lines[p..], arr) == if ok then Import(lines[pos..], arrChildren) else Failed
      decreases |lines| - pos, 1
    {
      var subArray;
      ok, subArray := ImportChildren(level + 1);
      if !ok {
        ImportNoList(lines, p, arr);
        return false, [];
      }
      ImportList(lines, p, pos, arr, subArray);
      ok, arrChildren := AttachChildren(arr, subArray);
    }
  }
}
