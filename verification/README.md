# Survol: from the triples to the pages, verified

Survol collects facts about a machine as RDF-like triples, and shows them as graphs, tables and menus. This
project models in Dafny the algorithms between the triples and what is written, and proves what they keep.

`dafny verify dfyconfig.toml` checks everything.

## What is modelled

* **The graph in DOT** (`Properties`, `DotNames`, `DotModel`, `DotTables`, `DotStream`, `DotTheorems`, `DotClosure`,
  `DotExport`). `DotExport.Exporter` is `Rdf2Dot` with its four passes over shared dictionaries. `DotModel`
  gives, over the sorted triples, the labels, owners, tables, fields and edges, and `DotStream` the stream they
  make; `DotTheorems` and `DotClosure` prove what is drawn in it, how many times, and when every name which is used
  is declared.
* **The names of the objects** (`Moniker`, `MonikerTheorems`, `Xid`, `Names`). Three grammars, with explicit scanners which follow
  the greedy regular expressions; the ontology, which `BuildEntity` extends in place.
* **The mode in URLs** (`ModeUrl`): reading, setting and removing it, and the two levels of `&amp;`.
* **Relative URLs** (`UriReference`, `RelativeUrl`, `RelativeUrlTheorems`), against RFC 3986: the parser of its
  Appendix B and the resolution of its section 5.2 are written out.
* **C++ symbols** (`Symbols`, `SymbolTheorems`), against an abstract syntax of types and its printer.
* **Aliases** (`AliasBinding`): the links between the nodes of the same object.
* **Class trees** (`WbemClasses`, `WmiClasses`): the pruned tree of a WBEM namespace, and the drawing of the WMI
  classes with its early stops.
* **The menu of the scripts** (`ScriptTree`), **the tables in HTML** (`HtmlGrid`), **the bookmarks** (`Bookmarks`,
  `BookmarkTheorems`), **the events** (`Events`, `EventTotals`) and **the caches** of modules and functions (`Caches`).
* `Text`, `Collections` and `Sorting` hold what these share on strings and sequences.

## What was found

The model follows the code. Where a property which is suggested by the code or its comments does not hold, the
exact condition is proved, or a concrete family of inputs is given.

* `Rdf2Dot` loses a `socket_end` triple from a node to itself, when it is its own reverse: no name is smaller than
  itself (`DotTheorems.EdgeDrawnOnce`).
* Two mutual sockets are compared by the names of their ends. When two properties are collapsed, the one whose address
  sorts last having the short name `socket_end`, which no page of the program does, sockets listed under both have
  another name as an object than as a subject: the pair is written twice, or never, by the order of the names of the
  tables. When it is the property whose address sorts first, the pair is written once
  (`DotTheorems.TwoSocketsAreDrawn`, `DotTheorems.SocketPairDrawnTwice`, `DotTheorems.MutualCount`).
* The renaming of the subject of a plain edge (survol/lib_export_dot.py:353-359) never happens
  (`DotExport.Exporter.RenameNeverFires`).
* With several collapsed properties, the edge to a table may start from a node which is never declared. It does
  so exactly when a subject with a table is only listed in tables of other properties
  (`DotClosure.ClosedIffTablesNest`, `DotClosure.TwoCollapsedPropertiesDangle`).
* The header of a table overwrites the row of the first object with an empty title (`DotTables.TableRowCount`,
  `DotTables.TablePorts`): an edge to this row leads nowhere, even with one collapsed property
  (`DotClosure.ClosedIff`, `DotClosure.UntitledRowDangles`).
* A WMI moniker is read only if its namespace is a word, a backslash and something without dot. The moniker of all
  the namespaces of a host, which is the default of the builder, is not parsed, nor is the one of `root` alone
  (`Xid.WmiNothingIsParsed`, `Xid.AllNamespacesAreNotParsed`). With an empty host, a namespace of three levels loses
  its first one, which is taken for the host (`Xid.WmiLocalRoundTrip`).
* The encoding doubles every backslash before an L, and the parser takes back none of them but at the start: the
  namespace `root\LDAP` and an id such as `C:\Logs` come back with two backslashes (`Xid.LdapIsChanged`,
  `Xid.IdIsChanged`, `Xid.WmiEncodedRoundTrip`, `Xid.WbemEncodedRoundTrip`).
* A relative URL is not undone by resolution when one path is below the other, and also when its first segment
  has a colon or starts with an empty segment, or when it is empty and a query or params of the source remain
  (`RelativeUrlTheorems.ResolvesIffRecovers`, `RelativeUrlTheorems.ColonFails`).
* A scalar after `, ` in a template is collected as a class, because the space is kept: a scalar argument is left
  out if and only if it is the first one (`SymbolTheorems.LooseExtraction`,
  `SymbolTheorems.ScalarIsCollectedUnlessFirst`, `SymbolTheorems.SpacedScalarIsAClass`).
* `find_closing_delimiter` ignores its index: the arguments start at the first parenthesis, even after
  `operator()` (`SymbolTheorems.FirstParenthesis`).
* The values of an object come back from the identifier which is built with them if and only if each one has its commas
  inside of closed quotes, does not start with a quote, and has no newline and no escape sequence; an escaped quote
  does not close when another quote comes later in the identifier (`MonikerTheorems.FieldsComeBackIff`,
  `Names.PipelineRoundTrip`, `Names.PlainValuesComeBackIff`).
* `BuildEntity` extends the cached list of keys: the identifiers built before cannot be read any more
  (`Names.ExtensionBreaksOlderIds`). For a class with no module the list is not the cached one, and extra values
  are lost (`Names.ValuesRoundTrip`).
* An event with no predicate, or whose object has not all its attributes, is stored but can never be read; the
  lines before it are then delivered three times by each retrieval (`Events.DeliveredIffComplete`,
  `Events.Conservation`).
* Different objects may share a file of events: if and only if their names, without the characters which are dropped
  and without what is after 240 characters, differ by separators and underscores only (`Events.SameFileIff`). So
  values which look alike, long values, and values with commas do (`Events.LookAlikesShareFile`,
  `Events.LongNamesShareFile`, `Events.CommasShareFile`).
* The attributes of a bookmark are split at spaces: they come back if and only if no value has one
  (`BookmarkTheorems.BookmarkTagIsRead`, `BookmarkTheorems.ReadBack`).
* The node of a directory in the menu is its title only: the first line of its documentation, cut after 40 characters,
  or its name. Two directories with the same title are one node, so that an empty one may be linked, and a
  directory with the title of the one it is in is linked to itself (`ScriptTree.EmptyDirIsLinked`,
  `ScriptTree.LinkedToItself`, `ScriptTree.LongTitlesAreEqual`, `ScriptTree.LinksAreRightIff`).
* Setting the mode of an URL to what was read changes it when the mode is empty (`ModeUrl.SetAfterGet`).
* A class which is in the table of `lib_patterns` keeps these parameters, whatever its module says
  (`Caches.Caches.TypeToGraphParams`).

## Model

| member | source | states |
|---|---|---|
| DotExport.Exporter.RdfNodeToDotLabel | survol/lib_export_dot.py:80-86 | a term gets one label, in the order in which terms are first seen; a known one keeps its label |
| DotNames.NodeLabelInjective | survol/lib_export_dot.py:84 | two labels are equal only for the same number |
| DotNames.TableNameInjective | survol/lib_export_dot.py:238-239 | the name of a table determines its property and its subject |
| DotNames.PortNameInjective | survol/lib_export_dot.py:247 | the name of a port determines its table and its row |
| DotTheorems.LabelInjective | survol/lib_export_dot.py:80-86 | different terms of a graph have different labels |
| DotExport.Exporter.FirstPass | survol/lib_export_dot.py:257-278 | the tables list exactly the objects of the collapsed triples, and the owners of an object are its last subject for each property |
| DotTheorems.OwnersAre | survol/lib_export_dot.py:270-278 | an object has an owner for a property if and only if some collapsed triple of this property leads to it, and the owner is a subject of such a triple |
| DotExport.Exporter.RdfNodeToDotLabelExtended | survol/lib_export_dot.py:281-312 | a name is the port of the term in a table of the given property, or else of its first one, or its label when it is in no table |
| DotExport.Exporter.RenameNeverFires | survol/lib_export_dot.py:353-359 | the name of a subject never is a key of the owners, so no edge is renamed |
| DotExport.Exporter.SecondPass | survol/lib_export_dot.py:315-373 | the stream gets the edges of the triples in order, and the fields are those of each subject |
| DotTheorems.EdgeDrawnOnce | survol/lib_export_dot.py:315-361 | in the stream, each triple to be drawn is shown by exactly one edge, and a socket to itself by none; a mutual socket when its ends have one name each |
| DotTheorems.SocketEndpoint | survol/lib_export_dot.py:281-312 | every term has one name when no collapsed property has the short name of a socket |
| DotTheorems.MutualCount | survol/lib_export_dot.py:331-340 | in the stream, a mutual pair is drawn once for each direction whose names are in order |
| DotTheorems.MutualPairInTwoTables | survol/lib_export_dot.py:331-340 | two mutual sockets which are both first in a table of a property, and also in one called as socket_end, are drawn twice in the stream if the name of the first table comes before, and never if it comes after (neither property, with an underscore, starting with the other one) |
| DotTheorems.TwoSocketsAreDrawn | survol/lib_export_dot.py:253-340 | with sorted triples and two collapsed properties, one having the short name of socket_end, two mutual sockets listed by one subject under both are drawn once if the address of this one sorts first, else twice or never by the names of the tables (neither short name, with an underscore, starting with the other one) |
| DotTheorems.SocketPairDrawnTwice | survol/lib_export_dot.py:253-340 | one such graph, which is sorted, where the pair is drawn twice: the property called socket_end is the one whose address sorts last |
| DotTheorems.EdgeIsTrue | survol/lib_export_dot.py:315-361 | an edge of the stream which can be read as a triple, in one of its directions, shows a triple of the graph |
| DotTheorems.MutualOnce | survol/lib_export_dot.py:331-340 | of two mutual sockets whose ends have one name each, one and only one is written |
| DotTheorems.EndsAtOnce | survol/lib_export_dot.py:281-312 | the end of an edge names one term only, as a node or as a row of any table |
| DotTheorems.ShownOnce | survol/lib_export_dot.py:257-373 | with distinct short names, a triple is listed once in a table, drawn by one edge of the stream or is one field, and only one of them |
| DotTheorems.ListedOnce | survol/lib_export_dot.py:265 | with distinct short names a table lists each object of its subject once |
| DotTheorems.FieldOnce | survol/lib_export_dot.py:341-373 | a triple which is a field is one field of its subject, once |
| DotExport.Exporter.FieldsKeys | survol/lib_export_dot.py:417-447 | the columns are the flat properties in use in their own order, then the other keys sorted, without the information |
| DotTables.ColumnsAreTheKeys | survol/lib_export_dot.py:417-452 | every key but the information has one column and only one |
| DotTables.FlatColumnsComeFirst | survol/lib_export_dot.py:427-447 | no other column is before one of a flat property |
| DotTables.SortIsUnique | survol/lib_export_dot.py:447 | the columns do not depend on the order in which keys were met |
| DotExport.Exporter.RowOf | survol/lib_export_dot.py:488-531 | each cell is the last value of the key of its column, and the title is made of the information |
| DotTables.CellShowsLastValue | survol/lib_export_dot.py:494-526 | a value is shown in its column if no later one has the same key |
| DotExport.UniqueTitle | survol/lib_export_dot.py:546-550 | terminates on the first of `T`, `T/2`, `T/3`... which is not a row yet |
| DotTables.IsUniqueOnce | survol/lib_export_dot.py:546-550 | this title is determined by the rows |
| DotTables.RowsKept | survol/lib_export_dot.py:458-556 | each object adds one row and overwrites none; every object listed has its line |
| DotTables.TableRowCount | survol/lib_export_dot.py:458-578 | as many rows as objects, plus the header, unless a title is empty |
| DotTables.TablePorts | survol/lib_export_dot.py:458-578 | the ports of a table are those of all its objects but the first one with an empty title |
| DotTables.TableHasEveryLine | survol/lib_export_dot.py:458-578 | with no empty title, each object listed has its line and its port in the table |
| DotExport.Exporter.ProcessCollapsedProperties | survol/lib_export_dot.py:380-605 | for each subject of the property, one edge to the table, then the table |
| DotExport.Exporter.LastPass | survol/lib_export_dot.py:618-655 | declares exactly the labelled terms which are in no table, with their fields |
| DotExport.Rdf2Dot | survol/lib_export_dot.py:73-658 | the stream is the edges, then the tables with their pointers, then the nodes, as specified on the triples |
| DotClosure.ClosedIff | survol/lib_export_dot.py:380-613 | for every graph: every name used by an edge is a declared node, a declared table or the port of one of its rows, if and only if each subject with a table, itself in tables, is in one of the same property, and no edge needs the row which a header replaces |
| DotClosure.ClosedIffTablesNest | survol/lib_export_dot.py:380-400 | with no empty title, the first of these two conditions is enough |
| DotClosure.OneCollapsedPropertyIsClosed | survol/lib_export_dot.py:610-613 | with one collapsed property all names are declared if and only if no edge needs the row which a header replaces, so always when no title is empty |
| DotClosure.UntitledRowDangles | survol/lib_export_dot.py:458-578 | with one collapsed property and triples in any order, x lists y which has no title, and another edge leads from z to y: it ends at a name which is not declared |
| DotClosure.TwoCollapsedPropertiesDangle | survol/lib_export_dot.py:388-400 | with two properties and triples in any order, x lists y and y lists z: an edge starts from a name which is not declared |
| DotClosure.HiddenNode | survol/lib_export_dot.py:618-621 | nothing declares the label of a term which is in a table |
| DotClosure.FieldInNode | survol/lib_export_dot.py:618-655 | a field of a term which is in no table is in its node |
| DotClosure.FieldInRow | survol/lib_export_dot.py:488-526 | a field of a term which is in a table has a column there, and its row has in this column the last value of the key; the table has this row if and only if the header did not replace it |
| Moniker.SplitMoniker | survol/lib_util.py:1180-1200 | the loop fills the dictionary of the pairs, the last value of a key staying |
| MonikerTheorems.SplitMonikerOfJoin | survol/lib_util.py:1173-1200 | splitting a printed list of fields, quoted or not, gives their dictionary, for values which are printed with care |
| MonikerTheorems.FieldsComeBackIff | survol/lib_util.py:1173-1200 | for any values: all the fields of a printed list are in the dictionary if and only if each value has its commas inside of closed quotes, does not start with a quote and has no newline |
| MonikerTheorems.PlainAreWhole | survol/lib_util.py:1180-1200 | for values without quotes this means no comma and no newline |
| MonikerTheorems.ClosedAlone | survol/lib_util.py:1180 | for a value without backslash this does not depend on the other values |
| Moniker.FieldsToMapIs | survol/lib_util.py:1187-1196 | with distinct keys each key has its own value, and there is no other key |
| Xid.UnquoteQuote | survol/lib_util.py:366-385 | unquoting a quoted string of bytes gives it back |
| Xid.LocalRoundTrip | survol/lib_util.py:507-534 | for any id: an identifier built on a local or a remote box is parsed into its class, id and host if and only if the id has no newline and no escape sequence, and on the local box does not look like a remote object |
| Xid.WmiRoundTrip | survol/lib_wmi.py:39-40 | a WMI moniker with its id (no percent sign, no newline) is refused by the grammar before, and is parsed into its host, namespace with class, and id, if and only if the namespace is a word then a backslash, and no dot comes before the id |
| Xid.WmiEncodedRoundTrip | survol/lib_util.py:613-643 | the encoded moniker comes back if and only if, besides, no backslash is before an L; the first ones may be tripled |
| Xid.WmiLocalRoundTrip | survol/lib_util.py:536-586 | with an empty host: if and only if, besides, what is below the first level is not a namespace too |
| Xid.WmiLocalEncodedRoundTrip | survol/lib_util.py:536-586 | the same for the encoded moniker, where a first level in L is never taken for the host |
| Xid.WmiNothingIsParsed | survol/lib_util.py:549-584 | a moniker whose namespace is not a word then a backslash gives three empty strings |
| Xid.AllNamespacesAreNotParsed | survol/lib_wmi.py:43-46 | so does the moniker of all the namespaces of a host |
| Xid.LdapIsChanged | survol/lib_util.py:536-586 | the namespace root\LDAP, encoded, comes back with two backslashes, for any class and id |
| Xid.WbemRoundTrip | survol/lib_wbem.py:29-36 | a WBEM moniker with its id (no percent sign, no newline), with or without a namespace, is refused by the two grammars before, and is parsed into its parts if and only if no dot comes before the id |
| Xid.WbemEncodedRoundTrip | survol/lib_util.py:588-611 | the encoded moniker comes back if and only if, besides, no backslash is before an L |
| Xid.IdIsChanged | survol/lib_util.py:588-611 | an id with a backslash before an L, encoded, comes back with two |
| Names.Server.OntologyClassKeys | survol/lib_util.py:997-1019 | the keys of a class, cached, and whether the list is the one in the cache |
| Names.Server.BuildEntity | survol/lib_uris.py:40-60 | the id pairs keys and values; missing keys are added to the list it was given, so to the cache when it is shared |
| Names.Server.UriMake | survol/lib_uris.py:34-64 | the identifier has the host, the class and the id, and the ontology changes as in BuildEntity |
| Names.Server.EntityIdToArray | survol/lib_util.py:1022-1044 | the values of the keys in order, or the first key which is missing |
| Names.XidRoundTrip | survol/lib_uris.py:405-410 | for any values: the identifier made by UriMake is parsed into the same class, id and host if and only if no value has a newline or an escape sequence |
| Names.ValuesRoundTrip | survol/lib_uris.py:40-60 | for any values: they come back if and only if they are as many as the keys, or more and the list of the keys was the shared one, and each has its commas inside of closed quotes, does not start with a quote and has no newline |
| Names.PipelineRoundTrip | survol/lib_util.py:1022-1044 | for any values: UriMake, ParseXid then EntityIdToArray give the same host and class, and the same values if and only if both conditions hold |
| Names.PlainValuesComeBackIff | survol/lib_uris.py:40-60 | values without quotes come back from the id if and only if their count is right and none has a comma or a newline |
| Names.ExtensionBreaksOlderIds | survol/lib_uris.py:48-51 | an id built with the declared keys, whose values come back, is refused with a missing key once the shared list was extended |
| ModeUrl.MatchIs | survol/lib_util.py:1078-1079 | however an URL is cut around a mode which is the last one, the expression finds these parts |
| ModeUrl.MatchIsFound | survol/lib_util.py:1078-1079 | the expression matches if and only if there is a mode, and its parts are those of the last one |
| ModeUrl.SetArgument | survol/lib_util.py:1078-1123 | of a path and its arguments, the last mode is read, replaced in its place or removed; the other arguments and their delimiters stay |
| ModeUrl.AddArgument | survol/lib_util.py:1052-1104 | with no mode argument, one is added after the others, with the right delimiter, and none is read |
| ModeUrl.GetAfterSet | survol/lib_util.py:1078-1123 | reading a mode which was just set gives it back if and only if it has no ampersand and no mode argument inside |
| ModeUrl.SetAfterSet | survol/lib_util.py:1078-1104 | the last mode which is set wins, also when it is then removed |
| ModeUrl.SetAfterGet | survol/lib_util.py:1078-1123 | setting the mode which is there changes nothing, if and only if it is not an empty argument |
| ModeUrl.Removed | survol/lib_util.py:1085-1099 | after a removal there is a mode if and only if another one was before it |
| ModeUrl.ModeOnNextLineIsHidden | survol/lib_util.py:1115-1123 | a mode added after the first line is not read |
| ModeUrl.NoAmpOfSvg | survol/lib_util.py:1062-1066 | removing the two levels of escaping gives back any string, with entities or not |
| UriReference.RemoveDotsSegments | Experimental/relative_url.py:18-53 | on paths with segments, RFC 3986 section 5.2.4 is a stack of segments |
| RelativeUrl.PopEqual | Experimental/relative_url.py:31-39 | what is left are the paths without their longest common beginning |
| RelativeUrl.Ascend | Experimental/relative_url.py:40-51 | the two special cases, then as many steps up as segments of the source but one |
| RelativeUrl.Relative | Experimental/relative_url.py:18-53 | the reference which is analysed by the theorems |
| RelativeUrlTheorems.ResolvesIffRecovers | Experimental/relative_url.py:18-53 | for all absolute URLs without dot segments: resolving the reference gives the target, if and only if a condition on what is left of both paths |
| RelativeUrlTheorems.OtherSite | Experimental/relative_url.py:22-30 | the target of another site is always reached |
| RelativeUrlTheorems.BelowFails | Experimental/relative_url.py:37-51 | never when the target is below the source |
| RelativeUrlTheorems.AboveFails | Experimental/relative_url.py:37-51 | never when the source is below the target, but for its empty name |
| RelativeUrlTheorems.DirectoryRecovers | Experimental/relative_url.py:43-46 | always from a directory with a final slash to the same path without it |
| RelativeUrlTheorems.ColonFails | Experimental/relative_url.py:51-52 | from /c to /a:b the reference is read as another scheme |
| Symbols.TopLevelSplit | survol/lib_symbol.py:23-48 | the parts between the delimiters which are not enclosed, without the empty ones |
| SymbolTheorems.SplitOfJoin | survol/lib_symbol.py:23-48 | splitting a comma join of balanced parts gives the parts |
| Symbols.ClassList.ExtractClassesFromType | survol/lib_symbol.py:73-89 | terminates, and appends the classes of the type; fails on pointers to nothing |
| Symbols.ClassList.ExtractTemplatedClassesFromToken | survol/lib_symbol.py:93-104 | the same for each of the template arguments |
| SymbolTheorems.ExtractionIsPreorder | survol/lib_symbol.py:73-104 | for every type which is printed, extraction appends exactly its class texts in preorder, without the scalars |
| Symbols.FindClosingDelimiter | survol/lib_symbol.py:4-18 | the index argument has no effect |
| SymbolTheorems.FirstParenthesis | survol/lib_symbol.py:109-116 | on a symbol which does not start with a bracket, the arguments start at the first parenthesis, even after operator() |
| SymbolTheorems.SymbolRoundTrip | survol/lib_symbol.py:119-143 | the name and the arguments of a printed symbol are given back, without their spaces |
| SymbolTheorems.SpacedScalarIsAClass | survol/lib_symbol.py:102-104 | any scalar with a space before it is appended as a class |
| SymbolTheorems.LooseExtraction | survol/lib_symbol.py:73-104 | for every type printed with a space after commas: its class texts in preorder, with the scalars which follow a comma |
| SymbolTheorems.ScalarIsCollectedUnlessFirst | survol/lib_symbol.py:93-104 | a scalar argument of such a type is collected if and only if it is not the first one |
| AliasBinding.AliasCache.NodeToUniversalAlias | survol/lib_exports.py:107-148 | the alias from the cache is the one which would be calculated |
| AliasBinding.CgiEnv.FindGroups | survol/lib_common.py:761-783 | every entity of the graph is in the group of its alias, and nothing else |
| AliasBinding.CgiEnv.BindGroup | survol/lib_common.py:785-797 | the nodes are enumerated once each, and each one linked to the next |
| AliasBinding.CgiEnv.BindIdenticalNodes | survol/lib_common.py:751-797 | the graph gets one chain for each alias, for some enumeration of its nodes |
| AliasBinding.ConnectedIffSameObject | survol/lib_common.py:751-797 | two entities are connected by alias edges if and only if their aliases are equal |
| AliasBinding.OthersAreAlone | survol/lib_common.py:757-764 | a node which is not an entity is connected to itself only |
| AliasBinding.EdgesAdded | survol/lib_common.py:785-797 | as many edges are added as nodes minus objects |
| AliasBinding.OnlyAliasesAreAdded | survol/lib_common.py:785-797 | nothing is removed, and only alias edges between different nodes of one object are added |
| AliasBinding.BindingAgain | survol/lib_common.py:751-797 | binding again connects nothing more, even in another order |
| WbemClasses.GetClassesTree | survol/lib_wbem.py:433-454 | the children of each class, in the order of the list; no other key |
| WbemClasses.OnePath | survol/lib_wbem.py:444-454 | with unique names there is one way from the root to a class |
| WbemClasses.PathIsShort | survol/lib_wbem.py:459-479 | no way from the root goes twice through a class: the recursion ends, even if other classes form a cycle |
| WbemClasses.Pruning.MakeInstrumentedRecu | survol/lib_wbem.py:459-479 | what is below the class is pruned, and no other entry changes |
| WbemClasses.GetClassesTreeInstrumented | survol/lib_wbem.py:483-499 | a class is a key if and only if it, or one below it, has a provider; its list is its children which are keys, in order |
| WbemClasses.PrunedTreeIsClosed | survol/lib_wbem.py:459-479 | subclasses in the lists are keys, and each key but the root is in the list of its superclass |
| WbemClasses.LeavesHaveProviders | survol/lib_wbem.py:459-479 | a class with an empty list has a provider |
| WmiClasses.DerivationCache.GetDerivationWithCache | survol/objtypes_wmi.py:75-90 | the derivation is the one of the server, and the cache then has all its bases, in spite of the early stop |
| WmiClasses.StopAtKnownBase | survol/objtypes_wmi.py:84-88 | a base which is in the cache has all its own bases there |
| WmiClasses.Drawing.ClassToNode | survol/objtypes_wmi.py:19-28 | a node is created once for a class, and is the same from the cache |
| WmiClasses.Drawing.DrawFromThisBase | survol/objtypes_wmi.py:37-66 | the two links of the class, and the chain of its bases up to the first known one |
| WmiClasses.Drawing.DrawClasses | survol/objtypes_wmi.py:151-180 | for any classes in any order: an edge to each class which is not too deep, and nothing out of the chains of these; the whole chains, when nothing was done before |
| WmiClasses.Drawing.DrawPage | survol/objtypes_wmi.py:121-180 | with all the bases listed: exactly one edge to each class of a small depth, from its base or from the root, whatever was done before |
| WmiClasses.Tree.StopLosesNothing | survol/objtypes_wmi.py:54-66 | stopping at a base which is done gives the same graph as drawing the whole chain |
| WmiClasses.Tree.EdgesAreExact | survol/objtypes_wmi.py:151-180 | a run over classes with all their bases gives one edge a class, and no other one |
| ScriptTree.Menu.DirToMenuAux | survol/entity_dirmenu_only.py:60-203 | true if and only if a script is shown below the directory, and the graph gets the trails to these scripts, through the titles of the directories, and nothing else; nothing at all when it is false |
| ScriptTree.Menu.AddScript | survol/entity_dirmenu_only.py:142-199 | a script is shown if it is usable or if all are, with its error |
| ScriptTree.LinkIffScript | survol/entity_dirmenu_only.py:129-139 | a link to a directory is there if and only if a script is shown below one of the directories which have this link |
| ScriptTree.FromModuleToDoc | survol/lib_util.py:1416-1442 | the title is the first line of the documentation which is not empty, cut after 40 characters, or the name |
| ScriptTree.LinkIffOwnScript | survol/entity_dirmenu_only.py:104-139 | when titles are distinct, a directory is linked if and only if a script is shown below it |
| ScriptTree.LinksAreRightIff | survol/entity_dirmenu_only.py:104-139 | this holds of all the directories if and only if, of two with the same link, both have a script or none |
| ScriptTree.EmptyDirIsLinked | survol/entity_dirmenu_only.py:104-139 | a directory with no script is linked when the one beside it has the same title and a script |
| ScriptTree.LongTitlesAreEqual | survol/lib_util.py:1421-1432 | documentations which differ after 40 characters only give the same title |
| ScriptTree.LinkedToItself | survol/entity_dirmenu_only.py:104-139 | a directory with the title of the one it is in, and a script, makes a link from a node to itself |
| ScriptTree.OneParent | survol/entity_dirmenu_only.py:129-139 | when titles are distinct, a directory is linked from one node only |
| ScriptTree.LinksChainBack | survol/entity_dirmenu_only.py:129-199 | every link hangs from the start, or from a node which is linked as well |
| ScriptTree.ScriptComesFrom | survol/entity_dirmenu_only.py:104-203 | a usable directory shows a script if and only if one of its files or of the directories which are visited does |
| HtmlGrid.Grouping.GroupAll | survol/lib_export_html.py:335-368 | each triple, except an empty information, is in exactly one leaf, of the class of its subject; no list is empty |
| HtmlGrid.Table.DispClassObjects | survol/lib_export_html.py:412-499 | laid out as HTML tables are, the rows are a complete grid of three columns whose lines are the leaves, ordered by the titles of subjects, predicates and titles of objects, and no cell goes below |
| HtmlGrid.Table.DispPredicate | survol/lib_export_html.py:441-497 | the row spans of a predicate end with its last object, and the objects are in the order of their titles |
| HtmlGrid.Table.CountObjects | survol/lib_export_html.py:426-430 | the row span of a subject is the number of all its objects |
| HtmlGrid.RowIsRead | survol/lib_export_html.py:462-497 | one more row is one more line of the grid, with no gap and no overlap |
| HtmlGrid.Grouping.WriteAllObjects | survol/lib_export_html.py:325-382 | one table a class in the order of names; each triple which is shown has one line, in the table of its class, and there is no other |
| Bookmarks.Reader.ImportChildren | survol/lib_bookmark.py:47-85 | the entries up to the closing tag, the shared cursor being just after it |
| BookmarkTheorems.ReadBack | survol/lib_bookmark.py:47-85 | a printed forest is read up to its closing line and leaves what follows; the same forest comes back if and only if no value of an attribute has a space |
| BookmarkTheorems.ForestIsRead | survol/lib_bookmark.py:47-85 | printed links and folders are added to the entries before, at any depth, with what remains of their attributes; or the reader fails, when an attribute cannot be read |
| BookmarkTheorems.BookmarkTagIsRead | survol/lib_bookmark.py:20-44 | a printed link or folder title gives back its attributes and its title if and only if no value has a space |
| BookmarkTheorems.LineIsRead | survol/lib_bookmark.py:8-15 | the tag and the rest of a printed line |
| BookmarkTheorems.RootOnlyWhenListIsFirst | survol/lib_bookmark.py:56-61 | a list which comes first goes to an entry called ROOT, and any other one to the entry before it |
| Events.SameNameIff | survol/lib_event.py:30-46 | any two texts become the same name of file if and only if what is kept of them has the same length, and differs by separators and underscores only |
| Events.SameFileIff | survol/lib_event.py:48-80 | any two objects of a class have the same file if and only if this holds of their names, cut after 240 characters |
| Events.SameShortNameIff | survol/lib_event.py:48-80 | in particular of their whole names, when these are short and nothing is dropped |
| Events.OneFileForEachObject | survol/lib_event.py:48-80 | for short names of plain characters, without commas in values, two objects of a class have the same file if and only if their attributes are equal |
| Events.LookAlikesShareFile | survol/lib_event.py:30-46 | two objects whose values differ by separators and underscores only have the same file |
| Events.LongNamesShareFile | survol/lib_event.py:62-80 | two objects whose names differ after 240 characters only have the same file |
| Events.CommasShareFile | survol/lib_event.py:48-62 | two objects have the same file when a comma moves a part of a value to the next attribute |
| Events.EventStore.AddEventToObject | survol/lib_event.py:109-136 | a line is added to the file of the object, if it has all its attributes, and to no other |
| Events.EventStore.DataStore | survol/lib_event.py:146-161 | one copy for the subject, one for an object which is not a text, and what is left when one is refused |
| Events.EventStore.DataStoreList | survol/lib_event.py:163-172 | every event is tried, whatever happened to those before |
| Events.EventStore.GetDataFromFile | survol/lib_event.py:211-243 | all the lines and an empty file, or three times the lines before the first bad one and the same file |
| Events.EventStore.DataRetrieveAll | survol/lib_event.py:262-275 | each file gives what it can, once |
| Events.EventStore.Run | survol/lib_event.py:109-275 | from an empty store, any run of the class leaves the pending lines and delivers the events which Conservation speaks of |
| Events.Conservation | survol/lib_event.py:109-243 | over any run, no stored line of a file is lost: all are delivered or pending, with their number; these are the stored ones in order, if and only if no retrieval met a bad line after good ones |
| EventTotals.StoreConservation | survol/lib_event.py:109-275 | over any run and all the files together: what was delivered and is in the files holds each event as many times as it was stored, once for each file of a part which names an object; and nothing more, if and only if no retrieval met a bad line after good ones |
| EventTotals.RunStore | survol/lib_event.py:109-275 | the same of the class, run from an empty store, for its files in any order |
| EventTotals.SummedCopies | survol/lib_event.py:146-161 | an event is stored once in the file of its subject, and once more for an object which is not a text |
| EventTotals.AllDeliveredOnce | survol/lib_event.py:262-275 | when all the events are complete, the retrievals have given each one as many times as it was stored |
| Events.DeliveredIffComplete | survol/lib_event.py:211-243 | after a retrieval everything stored was delivered once, if and only if all the events of the file were complete |
| Events.CompleteEventsAreStored | survol/lib_event.py:146-161 | storing complete events only is enough |
| Events.BlockedForEver | survol/lib_event.py:216-243 | a file with a bad line keeps it, and all its lines, for ever |
| Events.IncompleteIsStored | survol/lib_event.py:146-161 | an incomplete event with a good subject is stored, and blocks its file |
| Caches.Caches.GetEntityModule | survol/lib_util.py:1378-1390 | a module from the cache is the one which would be loaded |
| Caches.Caches.HierarchicalFunctionSearchNoCache | survol/lib_util.py:937-959 | the function of the deepest module which defines it, among the class and those above |
| Caches.Caches.HierarchicalFunctionSearch | survol/lib_util.py:965-981 | in any state of the two caches, what the plain search gives; a type with a dot is refused |
| Caches.Modules.DeepestIsUnique | survol/lib_util.py:937-959 | there is one such function |
| Caches.Modules.Inherited | survol/lib_util.py:937-959 | a class has its own function, or else the one of the class above |
| Caches.Caches.TypeToGraphParams | survol/lib_patterns.py:75-91 | in any state, the entry of the table, or else the five functions which are inherited, or the defaults |
| Caches.Caches.PatternNode | survol/lib_patterns.py:161-175 | in any state, the pattern of these parameters, for the type without its namespace |
| Caches.ParamsAreUnique | survol/lib_patterns.py:107-126 | the parameters of a class do not depend on the calls made before |

## Left out

- The CGI environment, HTTP, standard output, temporary files and Graphviz: only the structure of what is written is kept, not its colours, tooltips and texts.
- WMI, WBEM and the other systems which are queried: derivations, lists of classes, modules and descriptions of URLs are functions or lists which are given.
- lib_webserv, credentials, sniffers, memory scanner, ELF and PE readers, the clients in PHP and JavaScript: not part of this model.
- SymToArgs on function pointers and on `operator()`: the index which is reset makes their names meaningless.
- EnumerateInstrumentedClasses, NamespacesEnumeration and EqualMonikers: they do not do what they say.
- OtherAgentBox, the scripts of other agents and the URLs of the other kinds of objects in lib_uris: they repeat the same builders.
- DotExport.Rdf2Dot: the order of the fields in a node is not kept (a multiset), nor the order of rows in the browser; dictionaries of Python 2 have no order, here they keep the order of insertion; the title and the class of an URL are given functions.
- DotTheorems.EdgeDrawnOnce: the property shown on an edge is the whole one; two properties with the same short name are not distinguished in DOT.
- Xid.UnquoteQuote: quoting is on bytes, the encoding of other characters is not modelled.
- Names.Server.EntityIdToArray: the decoding of a value by its key (ValueDecode) is left out.
- Names.Server.BuildEntity: the pairs are in the order of the keys, which Python 2 does not promise, and the decoding of a value by its key is left out.
- RelativeUrl.Relative: urlparse is given, as the components of the URL.
- AliasBinding.AliasCache.NodeToUniversalAlias: the text of an object for a given host is a given function, letters are put in lower case in ASCII only, and the replacement of a name by an address, which is switched off, is left out.
- AliasBinding.ConnectedIffSameObject: alias edges which are there already must be right, else they connect what they connect.
- WbemClasses.GetClassesTreeInstrumented: the names of the classes of a namespace are unique, as CIM requires.
- WmiClasses.Drawing.DrawPage: the bases of a class are those of its closest base after it, as WMI gives them.
- ScriptTree.Menu.DirToMenuAux: the tree of directories is given as a value, letters are capitalised in ASCII only, the address of a script is given by its path, and the flag for remote objects, which is always forced to true, is left out.
- HtmlGrid.Table.DispPredicate: objects are sorted by title, as the program does without the natsort module; the natural order of this module is not part of this model.
- HtmlGrid.Table.DispClassObjects: the same for the subjects, and for the predicates.
- Events.SameFileIff: the attributes in the name of a file are in the order of the ontology, which Python 2 does not promise.
- Events.EventStore.DataStore: the attributes of an object are texts, and the directory of a class is made when it is needed.
- Events.EventStore.GetDataFromFile: the transformation of a line into nodes is left out (it fails on incomplete lines only), and so are the readers and writers at the same time, and an entity type with `..` which would leave the directory.
- Caches.Caches.GetEntityModule: a module which fails with something else than an import error is left out.
