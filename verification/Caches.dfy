/** The modules of the classes and the functions which are inherited through them: lib_util and lib_patterns.
    Each cache gives what the plain search gives, in any state. */
module Caches {
  import opened Text
  import opened Collections

  // The functions which a module defines, by name, with what they return.
  datatype Module = Module(functions: map<string, string>)

  // ---- the plain search ----

  // A class, or one of the classes above it: the beginning of its name, up to a dot.
  predicate IsAbove(kind: string, k: int)
  {
    0 < k <= |kind| && (k == |kind| || kind[k] == '.')
  }

  // How a module is imported, if it exists.
  datatype Modules = Modules(load: string -> Option<Module>)
  {
    // There is no module for an empty name.
    function Get(kind: string): Option<Module>
    {
      if kind == "" then None else load(kind)
    }

    function Defined(kind: string, name: string): Option<string>
    {
      match Get(kind)
      case None => None
      case Some(m) => if name in m.functions then Some(m.functions[name]) else None
    }

    // The function of the closest module which defines it.
    ghost predicate IsDeepest(kind: string, name: string, r: Option<string>)
    {
      if r.None? then forall k :: IsAbove(kind, k) ==> Defined(kind[..k], name).None?
      else exists k :: IsAbove(kind, k) && IsDeepestAt(kind, name, r, k)
    }

    ghost predicate IsDeepestAt(kind: string, name: string, r: Option<string>, k: int)
      requires IsAbove(kind, k)
    {
      && Defined(kind[..k], name) == r
      && (forall j :: IsAbove(kind, j) && k < j ==> Defined(kind[..j], name).None?)
    }

    lemma DeepestIsUnique(kind: string, name: string, r1: Option<string>, r2: Option<string>)
      requires IsDeepest(kind, name, r1) && IsDeepest(kind, name, r2)
      ensures r1 == r2
    {
      if r1.Some? && r2.Some? {
        var k1 :| IsAbove(kind, k1) && IsDeepestAt(kind, name, r1, k1);
        var k2 :| IsAbove(kind, k2) && IsDeepestAt(kind, name, r2, k2);
        assert k1 == k2;
      }
    }

    // A class inherits from the class above it what its own module does not define.
    lemma Inherited(parent: string, child: string, name: string, r: Option<string>)
      requires '.' !in child && parent != ""
      ensures
        var kind := parent + ['.'] + child;
        IsDeepest(kind, name, r) <==>
          if Defined(kind, name).Some? then r == Defined(kind, name) else IsDeepest(parent, name, r)
    {
      var kind := parent + ['.'] + child;
      assert kind[..|kind|] == kind && kind[|parent|] == '.' && IsAbove(kind, |kind|);
      forall k ensures IsAbove(kind, k) <==> k == |kind| || IsAbove(parent, k) {
        assert k == |parent| ==> kind[k] == '.';
        assert 0 <= k < |parent| ==> kind[k] == parent[k];
        assert |parent| < k < |kind| ==> kind[k] == child[k - |parent| - 1] && kind[k] in child;
      }
      forall k | IsAbove(parent, k) ensures kind[..k] == parent[..k] {
      }
      if Defined(kind, name).Some? {
        assert IsDeepestAt(kind, name, Defined(kind, name), |kind|);
        if IsDeepest(kind, name, r) {
          DeepestIsUnique(kind, name, r, Defined(kind, name));
        }
      } else if r.Some? {
        forall k | IsAbove(parent, k) ensures IsDeepestAt(kind, name, r, k) <==> IsDeepestAt(parent, name, r, k) {
        }
      }
    }
  }

  // ---- graphic parameters ----

  const GRAPHIC_FUNCTIONS := ["Graphic_shape", "Graphic_colorfill", "Graphic_colorbg", "Graphic_border", "Graphic_is_rounded"]
  const DEFAULTS := ["none", "#FFFFFF", "#99BB88", "1", "False"]

  // What a class has, from its module, the modules above it, or by default.
  ghost predicate IsGraphParam(modules: Modules, kind: string, i: nat, value: string)
    requires i < 5
  {
    exists r :: modules.IsDeepest(kind, GRAPHIC_FUNCTIONS[i], r) && value == if r.Some? then r.value else DEFAULTS[i]
  }

  ghost predicate AreGraphParams(modules: Modules, kind: string, params: seq<string>)
  {
    |params| == 5 && forall i: nat :: i < 5 ==> IsGraphParam(modules, kind, i, params[i])
  }

  // Some classes have their parameters in a table, whatever their modules say.
  ghost predicate AreParamsOf(modules: Modules, table: map<string, seq<string>>, kind: string, params: seq<string>)
  {
    if kind in table then params == table[kind] else AreGraphParams(modules, kind, params)
  }

  lemma ParamsAreUnique(modules: Modules, table: map<string, seq<string>>, kind: string, a: seq<string>, b: seq<string>)
    requires AreParamsOf(modules, table, kind, a) && AreParamsOf(modules, table, kind, b)
    ensures a == b
  {
    if kind !in table {
      forall i: nat | i < 5 ensures a[i] == b[i] {
        assert IsGraphParam(modules, kind, i, a[i]) && IsGraphParam(modules, kind, i, b[i]);
        var r1 :| modules.IsDeepest(kind, GRAPHIC_FUNCTIONS[i], r1) && a[i] == if r1.Some? then r1.value else DEFAULTS[i];
        var r2 :| modules.IsDeepest(kind, GRAPHIC_FUNCTIONS[i], r2) && b[i] == if r2.Some? then r2.value else DEFAULTS[i];
        modules.DeepestIsUnique(kind, GRAPHIC_FUNCTIONS[i], r1, r2);
      }
    }
  }

  // An error is raised on a type which has a dot already.
  datatype Result<T> = Ok(value: T) | Invalid

  function LastPart(s: string): string
  {
    var parts := Split(s, ':');
    parts[|parts| - 1]
  }

  // ---- the program ----

  class Caches {
    const modules: Modules
    const table: map<string, seq<string>>
    const pattern: seq<string> -> string
    var cacheEntityToModule: map<string, Option<Module>>
    var dictHierarchicalFunctionSearch: map<string, map<string, Option<string>>>
    var dictGraphParams: map<string, seq<string>>
    var dictTypeToPatterns: map<string, string>

    ghost predicate ModulesValid()
      reads this`cacheEntityToModule
    {
      forall kind :: kind in cacheEntityToModule ==> cacheEntityToModule[kind] == modules.Get(kind)
    }

    ghost predicate FunctionsValid()
      reads this`dictHierarchicalFunctionSearch
    {
      forall name, kind :: name in dictHierarchicalFunctionSearch && kind in dictHierarchicalFunctionSearch[name] ==>
        modules.IsDeepest(kind, name, dictHierarchicalFunctionSearch[name][kind])
    }

    ghost predicate ParamsValid()
      reads this`dictGraphParams
    {
      && table.Keys <= dictGraphParams.Keys
      && (forall kind :: kind in dictGraphParams ==> AreParamsOf(modules, table, kind, dictGraphParams[kind]))
    }

    ghost predicate IsPattern(typeFull: string, text: string)
    {
      var kind := LastPart(typeFull);
      && '.' !in kind
      && exists params :: AreParamsOf(modules, table, ReplaceChar(kind, '/', '.'), params) && text == pattern(params)
    }

    ghost predicate PatternsValid()
      reads this`dictTypeToPatterns
    {
      forall kind :: kind in dictTypeToPatterns ==> IsPattern(kind, dictTypeToPatterns[kind])
    }

    constructor (modules: Modules, table: map<string, seq<string>>, pattern: seq<string> -> string)
      ensures this.modules == modules && this.table == table && this.pattern == pattern
      ensures ModulesValid() && FunctionsValid() && ParamsValid() && PatternsValid()
    {
      this.modules := modules;
      this.table := table;
      this.pattern := pattern;
      cacheEntityToModule := map["" := None];
      dictHierarchicalFunctionSearch := map[];
      dictGraphParams := table;
      dictTypeToPatterns := map[];
    }

    method GetEntityModule(kind: string) returns (m: Option<Module>)
      requires ModulesValid()
      modifies this`cacheEntityToModule
      ensures ModulesValid() && m == modules.Get(kind)
    {
      if kind in cacheEntityToModule {
        return cacheEntityToModule[kind];
      }
      m := modules.Get(kind);
      cacheEntityToModule := cacheEntityToModule[kind := m];
    }

    // From the class up to the one on the top.
    method HierarchicalFunctionSearchNoCache(typeWithoutNS: string, name: string) returns (r: Option<string>)
      requires ModulesValid()
      modifies this`cacheEntityToModule
      ensures ModulesValid() && modules.IsDeepest(typeWithoutNS, name, r)
    {
      var lastDot := |typeWithoutNS|;
      while lastDot > 0
        invariant ModulesValid() && lastDot <= |typeWithoutNS|
        invariant lastDot > 0 ==> IsAbove(typeWithoutNS, lastDot)
        invariant forall k :: IsAbove(typeWithoutNS, k) && k > lastDot ==> modules.Defined(typeWithoutNS[..k], name).None?
        decreases lastDot
      {
        var m := GetEntityModule(typeWithoutNS[..lastDot]);
        if m.Some? && name in m.value.functions {
          r := Some(m.value.functions[name]);
          assert modules.IsDeepestAt(typeWithoutNS, name, r, lastDot);
          return;
        }
        assert forall k :: 0 <= k < lastDot ==> typeWithoutNS[..lastDot][k] == typeWithoutNS[k];
        lastDot := RFind(typeWithoutNS[..lastDot], '.');
      }
      r := None;
    }

    method HierarchicalFunctionSearch(typeWithoutNS: string, name: string) returns (r: Result<Option<string>>)
      requires ModulesValid() && FunctionsValid()
      modifies this`cacheEntityToModule, this`dictHierarchicalFunctionSearch
      ensures ModulesValid() && FunctionsValid()
      ensures r.Invalid? <==> '.' in typeWithoutNS
      ensures r.Ok? ==> modules.IsDeepest(ReplaceChar(typeWithoutNS, '/', '.'), name, r.value)
    {
      if '.' in typeWithoutNS {
        return Invalid;
      }
      var kind := ReplaceChar(typeWithoutNS, '/', '.');
      if name in dictHierarchicalFunctionSearch && kind in dictHierarchicalFunctionSearch[name] {
        return Ok(dictHierarchicalFunctionSearch[name][kind]);
      }
      var found := HierarchicalFunctionSearchNoCache(kind, name);
      var ofName := if name in dictHierarchicalFunctionSearch then dictHierarchicalFunctionSearch[name] else map[];
      dictHierarchicalFunctionSearch := dictHierarchicalFunctionSearch[name := ofName[kind := found]];
      return Ok(found);
    }

    method TypeToGraphParamsNoCache(kind: string) returns (params: seq<string>)
      requires ModulesValid()
      modifies this`cacheEntityToModule
      ensures ModulesValid() && AreGraphParams(modules, kind, params)
    {
      params := [];
      for i := 0 to |GRAPHIC_FUNCTIONS|
        invariant ModulesValid() && |params| == i <= 5
        invariant forall k: nat :: k < i ==> IsGraphParam(modules, kind, k, params[k])
      {
        var found := HierarchicalFunctionSearchNoCache(kind, GRAPHIC_FUNCTIONS[i]);
        var value := if found.Some? then found.value else DEFAULTS[i];
        assert IsGraphParam(modules, kind, i, value);
        params := params + [value];
      }
    }

    method TypeToGraphParams(typeWithoutNS: string) returns (r: Result<seq<string>>)
      requires ModulesValid() && ParamsValid()
      modifies this`cacheEntityToModule, this`dictGraphParams
      ensures ModulesValid() && ParamsValid()
      ensures r.Invalid? <==> '.' in typeWithoutNS
      ensures r.Ok? ==> AreParamsOf(modules, table, ReplaceChar(typeWithoutNS, '/', '.'), r.value)
    {
      if '.' in typeWithoutNS {
        return Invalid;
      }
      var kind := ReplaceChar(typeWithoutNS, '/', '.');
      if kind in dictGraphParams {
        return Ok(dictGraphParams[kind]);
      }
      var params := TypeToGraphParamsNoCache(kind);
      dictGraphParams := dictGraphParams[kind := params];
      return Ok(params);
    }

    method PatternNode(typeFull: string) returns (r: Result<string>)
      requires ModulesValid() && ParamsValid() && PatternsValid()
      modifies this`cacheEntityToModule, this`dictGraphParams, this`dictTypeToPatterns
      ensures ModulesValid() && ParamsValid() && PatternsValid()
      ensures r.Invalid? <==> '.' in LastPart(typeFull)
      ensures r.Ok? ==> IsPattern(typeFull, r.value)
    {
      if typeFull in dictTypeToPatterns {
        assert IsPattern(typeFull, dictTypeToPatterns[typeFull]);
        return Ok(dictTypeToPatterns[typeFull]);
      }
      var params := TypeToGraphParams(LastPart(typeFull));
      if params.Invalid? {
        return Invalid;
      }
      var text := pattern(params.value);
      assert IsPattern(typeFull, text);
      dictTypeToPatterns := dictTypeToPatterns[typeFull := text];
      return Ok(text);
    }
  }
}
