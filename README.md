# flowslice in Dafny

flowslice is a program slicer for Python. Its input is a criterion `file:line:variable`. It answers two questions:

- Backward: which earlier statements the variable's value at that line depends on.
- Forward: which later statements that value flows into.

Both answers can cross function boundaries: into functions of the same file, and into functions imported from other files.

This project models the engine that computes the answers:

- `SlicerVisitor`: the dataflow visitor over a file's syntax tree. It tracks relevant or affected names, including dotted attribute paths such as `args.file`. It follows calls: it binds arguments to parameters in order and tracks those parameters through the callee's body.
- `Slicer`: runs the backward visitor pass after pass, at most ten, stopping at the first pass after the first that adds no name. It drops nodes whose (file, line, variable, operation) was already seen, sorts the backward slice by file and line, and orders the forward slice.
- `ImportResolver`:
  - resolves imported module names to files;
  - traces names re-exported through package `__init__.py` files;
  - builds a file's import map;
  - finds imported function definitions;
  - caches parsed trees.
- The data records of a slice (`SliceDirection`, `SliceNode`, `SliceResult`).
- The two formatter parts that compute values: the tree view's merge of nodes that share a line, and the JSON view's dictionary.
- The command line's validation of its argument vector.
- The earlier proof of concept `EnhancedSlicer` and its driver `slice_variable`.

Each module states what it models and the properties it proves.

The model has the source's own form:

- Pure helpers are functions with contracts. Examples: the name collector, the most-specific filter, import resolution, tracking inside callees, the JSON dictionary.
- Each stateful visitor is a class whose fields its methods update:
  - `SlicerVisitors.SlicerVisitor`, `ImportResolution.ImportResolver`, `Slicing.Slicer` and `Prototype.EnhancedSlicer`;
  - every method ensures that the new state is a function of the old one. These functions live in `VisitorModel`, `PrototypeModel`, `Tracking`, `ImportResolution` and `Slicing`;
  - the slicing properties are proved as lemmas about those functions.
- Loops in the source are methods with `while` loops and invariants.
- The tree formatter's in-place merge works on an `array` of nodes.

The environment is abstract:

- A `FileSystem` value stands for the disk: the paths that exist, the text of each readable file, the parsed tree of each file that parses, and the working directory.
- Parsing is not modelled. A file's tree is given by `FileSystem.trees`.
- The order in which Python lists the elements of a set (`list(s)`) is a parameter, `Listing`. Every choice of listing is covered; the lemmas that need it assume only that it lists each element once.
- Printing and `sys.exit` become the `Outcome` value and its `ExitCode`.

## Model

| member | source | states |
|---|---|---|
| Models.DirectionFromValue | src/flowslice/core/models.py:8-13 | `SliceDirection(s)`: when it succeeds, the direction's value is `s`; it fails exactly when no direction has value `s` |
| Models.DirectionRoundTrip | src/flowslice/core/models.py:8-13 | constructing a direction from its own value gives that direction back |
| Models.DirectionValuesDistinct | src/flowslice/core/models.py:8-13 | the three values are distinct, and exactly "backward", "forward" and "both" are accepted |
| Models.NewSliceNode | src/flowslice/core/models.py:16-27 | a node built from its six required fields has the dataclass defaults: no dependencies, no context |
| Models.NewSliceResult | src/flowslice/core/models.py:30-38 | a result built from its target has both slices empty |
| Strings.SplitOn | src/flowslice/cli/main.py:43 | `str.split` on one character: at least one part, no part holds the separator, parts use only the input's characters |
| Strings.JoinSplit | src/flowslice/core/slicer.py:862 | splitting and joining again gives back the original text |
| Strings.SplitNoSep | src/flowslice/cli/main.py:43 | text without the separator splits into itself |
| Strings.SplitAtSep | src/flowslice/cli/main.py:43 | splitting `a + sep + b` with no separator in `a` cuts exactly there |
| Strings.SplitJoin | src/flowslice/cli/main.py:43 | parts free of the separator, joined and split again, come back unchanged |
| Strings.JoinPrefix | src/flowslice/core/slicer.py:359 | the join of a leading run of parts, with a separator, is a prefix of the whole join |
| Strings.JoinSnoc | src/flowslice/core/slicer.py:359 | joining one more part appends the separator and that part |
| Strings.StrLeTotal | src/flowslice/core/slicer.py:919 | Python's string order is total |
| Strings.StrLeTrans | src/flowslice/core/slicer.py:919 | Python's string order is transitive |
| Strings.StrLeAntisym | src/flowslice/core/slicer.py:919 | Python's string order is antisymmetric |
| Strings.StripStart | src/flowslice/formatters/json.py:72 | the first non-whitespace position at or after `i`; everything skipped is whitespace |
| Strings.StripEnd | src/flowslice/formatters/json.py:72 | the end of a range once trailing whitespace is dropped; everything dropped is whitespace |
| Strings.Strip | src/flowslice/formatters/json.py:72 | `str.strip`: an infix of the input, preceded and followed only by whitespace, neither starting nor ending with whitespace |
| Strings.Lower | src/flowslice/cli/main.py:28 | `str.lower` keeps the length, and lower-cases each character where it stands |
| Strings.ParseInt | src/flowslice/cli/main.py:44 | `int(s)` succeeds exactly on an optional sign followed by at least one digit |
| Strings.ReadLines | src/flowslice/core/slicer.py:478-482 | `readlines`: no empty line; a newline appears only as the last character of a line, and every line but the last ends with one |
| Strings.ReadLinesConcat | src/flowslice/core/slicer.py:478-482 | the lines put together give back the file's text |
| Strings.PathName | src/flowslice/core/slicer.py:874 | `Path(p).name` holds no separator, and a plain name is its own name |
| Strings.LastProperIn | src/flowslice/core/slicer.py:874 | the name chosen is one of the path's components, or empty |
| Sorting.Insert | src/flowslice/core/slicer.py:919 | one insertion step of the stable sort adds its element and loses none |
| Sorting.SortBy | src/flowslice/core/slicer.py:919 | `sorted(..., key=...)` returns a permutation of its input |
| Sorting.InsertSorted | src/flowslice/core/slicer.py:919 | inserting into a sorted sequence keeps it sorted under a total preorder |
| Sorting.SortBySorted | src/flowslice/core/slicer.py:919 | the result of `sorted` is sorted by its key |
| Sorting.InsertMembers | src/flowslice/core/slicer.py:919 | an insertion step invents no element |
| Sorting.InsertDistinct | src/flowslice/core/slicer.py:903-907 | an insertion step keeps keys distinct |
| Sorting.InsertCongruent | src/flowslice/core/slicer.py:919 | an insertion step depends only on how the order compares the elements involved |
| Sorting.SortByCongruent | src/flowslice/core/slicer.py:919 | two orders that agree on the input's elements sort it the same way |
| Sorting.Equivalents | src/flowslice/core/slicer.py:919 | the elements with the same key as `y`, in input order |
| Sorting.EquivalentsCons | src/flowslice/core/slicer.py:919 | the equal-key elements of a list are those of its head followed by those of its tail |
| Sorting.InsertEquivalents | src/flowslice/core/slicer.py:919 | an insertion step puts the new element before every other element with its key |
| Sorting.SortByStable | src/flowslice/core/slicer.py:919 | `sorted` is stable: the elements sharing a key keep their input order |
| Sorting.SortByDistinct | src/flowslice/core/slicer.py:903-919 | sorting nodes with distinct keys keeps the keys distinct |
| SortedSets.DropRepeats | src/flowslice/formatters/tree.py:37-38 | dropping the repeats of a list keeps exactly the same elements |
| SortedSets.DropRepeatsStrict | src/flowslice/formatters/tree.py:37-38 | a sorted list without its repeats is strictly increasing and ends with the same element |
| SortedSets.SortedUniqueSpec | src/flowslice/formatters/json.py:45-53 | `sorted(list(set(xs)))` is strictly increasing and holds exactly the elements of `xs` |
| SortedSets.StrictlySortedUnique | src/flowslice/formatters/json.py:52-53 | two strictly increasing lists of the same elements are equal, so the result does not depend on the set's listing order |
| PyAst.LStripDots | src/flowslice/core/import_resolver.py:81 | `lstrip('.')`: a suffix of the input that does not start with a dot |
| PyAst.ModuleNameStrip | src/flowslice/core/import_resolver.py:81 | a dotted module name survives the stripping whole and is not empty |
| PyAst.StmtChildrenSize | src/flowslice/core/import_resolver.py:72 | a statement is larger than all its children together, which bounds the `ast.walk` traversal |
| PyAst.NextLevelSize | src/flowslice/core/import_resolver.py:72 | each level of the breadth-first walk is smaller than the one before by its number of nodes |
| PyAst.Walk | src/flowslice/core/slicer.py:831 | `ast.walk(tree)` restricted to statements, level by level; its properties are `PyAst.StmtsOf`, `PyAst.NextLevelSize` and `PyAst.WalkStmt` |
| PyAst.StmtsOf | src/flowslice/core/import_resolver.py:72 | the statements kept from a walk are exactly the statement nodes met |
| PyAst.WalkStmt | src/flowslice/core/slicer.py:798 | `ast.walk(stmt)` starts at the statement itself |
| NameAnalysis.FullAttrPath | src/flowslice/core/slicer.py:387-395 | `_get_full_attr_path`: the dot-joined identifiers of a chain rooted at a name, or "" when the chain is not rooted at a name |
| NameAnalysis.Prefixes | src/flowslice/core/slicer.py:357-363 | every leading run of an attribute path, joined with '.'; its properties are `NameAnalysis.PrefixesSplit` and `NameAnalysis.PathNamesOfChain` |
| NameAnalysis.Names | src/flowslice/core/slicer.py:338-398 | the names `_get_names_from_expr` collects; its properties are `NamesOfChain`, `NamesOfPair`, `UnrootedAttribute`, `IterNamesIff` and `ComprehensionNames`, and `NameAnalysis.GetNamesFromExpr` computes it |
| NameAnalysis.PrefixesSplit | src/flowslice/core/slicer.py:357-363 | the prefixes the collector adds are the whole path plus each proper leading run of its parts |
| NameAnalysis.PathNamesOfChain | src/flowslice/core/slicer.py:357-363 | splitting a chain's path at its dots and joining every leading run gives exactly the chain's prefixes |
| NameAnalysis.NamesOfChain | src/flowslice/core/slicer.py:349-363 | a chain `a.b.c` contributes exactly `a.b.c`, `a.b` and `a` |
| NameAnalysis.NamesOfPair | src/flowslice/core/slicer.py:352-363 | `a.b` contributes `{"a.b", "a"}` |
| NameAnalysis.UnrootedAttribute | src/flowslice/core/slicer.py:352-363 | an attribute of something that is not a chain (`f(x).y`) adds only the names of its base |
| NameAnalysis.IterNamesIff | src/flowslice/core/slicer.py:365-385 | what the generators contribute is exactly the names of what they iterate over |
| NameAnalysis.ComprehensionNames | src/flowslice/core/slicer.py:365-385 | a comprehension contributes only its iterables' names: element, targets and `if` filters are ignored |
| NameAnalysis.ListComprehensionExample | src/flowslice/core/slicer.py:365-385 | `[x * 2 for x in source if x > 0]` depends on `source` only |
| NameAnalysis.FilterMostSpecific | src/flowslice/core/slicer.py:308-336 | `_filter_most_specific` keeps a subset, and the empty set stays empty |
| NameAnalysis.FilterAntichain | src/flowslice/core/slicer.py:308-336 | no kept name is a dotted prefix of another kept name |
| NameAnalysis.FilterCovers | src/flowslice/core/slicer.py:308-336 | every dropped name is a dotted prefix of some kept name |
| NameAnalysis.FilterIdempotent | src/flowslice/core/slicer.py:308-336 | filtering twice is filtering once |
| NameAnalysis.FilterDrops | src/flowslice/core/slicer.py:325-334 | a name is dropped exactly when another input name extends it by a dot |
| NameAnalysis.FilterChain | src/flowslice/core/slicer.py:308-395 | a chain's collected names filter down to its full path alone |
| NameAnalysis.BaseName | src/flowslice/core/slicer.py:400-406 | `_get_base_name`: the root identifier of a chain, or "" |
| NameAnalysis.BaseNameCollected | src/flowslice/core/slicer.py:400-406 | the root is among the chain's collected names, and is the first dot-separated part of its path |
| NameAnalysis.FuncName | src/flowslice/core/slicer.py:300-306 | `_get_func_name`: the name for a name, `base.attr` for an attribute, `<unknown>` otherwise; never empty |
| NameAnalysis.FuncNameSkipsMiddle | src/flowslice/core/slicer.py:300-306 | `self.helper.run` is shown as `self.run`, not as its path |
| NameAnalysis.Collect | src/flowslice/core/slicer.py:345-385 | the `NameCollector` visit adds exactly the expression's names to the set |
| NameAnalysis.CollectAll | src/flowslice/core/slicer.py:345-385 | the generic visit of sub-expressions adds all their names |
| NameAnalysis.GetNamesFromExpr | src/flowslice/core/slicer.py:338-398 | `_get_names_from_expr` returns exactly the expression's names |
| NameAnalysis.ArgNames | src/flowslice/core/slicer.py:776-778 | the union of the names of every call argument |
| NameAnalysis.MostSpecific | src/flowslice/core/slicer.py:308-336 | the double loop of `_filter_most_specific` computes the filter |
| ImportResolution.Parent | src/flowslice/core/import_resolver.py:32 | `Path.parent` drops the last component |
| ImportResolution.RootRelative | src/flowslice/core/import_resolver.py:46 | `module.replace('.', '/') + ".py"`: one component per dotted part, the last with `.py` |
| ImportResolution.Candidates | src/flowslice/core/import_resolver.py:31-48 | there are three places to try |
| ImportResolution.ResolveImport | src/flowslice/core/import_resolver.py:21-50 | `resolve_import` fails exactly when none of the three candidates exists, and otherwise returns the first that does |
| ImportResolution.AliasHit | src/flowslice/core/import_resolver.py:75-93 | an alias leads somewhere only when it names the traced name, its statement has a module, and the target exists |
| ImportResolution.FirstSome | src/flowslice/core/import_resolver.py:72-93 | the first element that gives a result gives the result; none gives one exactly when the result is `None` |
| ImportResolution.FirstSomeAt | src/flowslice/core/import_resolver.py:72-93 | the first element that gives a result is what the search returns |
| ImportResolution.FirstAliasHit | src/flowslice/core/import_resolver.py:75-93 | the first alias of a `from` statement that leads somewhere, and `None` exactly when none does |
| ImportResolution.StmtHit | src/flowslice/core/import_resolver.py:73-93 | only a `from` statement can re-export |
| ImportResolution.FirstHit | src/flowslice/core/import_resolver.py:72-93 | the first statement in walk order that re-exports the name, and `None` exactly when none does |
| ImportResolution.Traced | src/flowslice/core/import_resolver.py:52-96 | `_trace_reexport` keeps the name; it returns any file that is not an `__init__.py` unchanged; the result is the input path or an existing file; each step goes one directory deeper, so tracing ends |
| ImportResolution.TracedStep | src/flowslice/core/import_resolver.py:67-96 | one step from a package: no re-export returns the package itself, a module file is the answer, a nested package is traced further |
| ImportResolution.FromBindings | src/flowslice/core/import_resolver.py:112-121 | `from m import a as b` binds `b` (or `a`) to the traced file of `a` and the name `a`, one binding per alias |
| ImportResolution.Resolving | src/flowslice/core/import_resolver.py:124-130 | the listed modules that resolve to a file, and only those |
| ImportResolution.ImportBindings | src/flowslice/core/import_resolver.py:124-130 | one binding per module that resolves, in order: `import m as n` binds `n` (or `m`) to `m`'s resolved file; a module that does not resolve binds nothing |
| ImportResolution.Bindings | src/flowslice/core/import_resolver.py:98-132 | the bindings `parse_imports` makes, statement by statement in walk order; each statement's part is stated by `FromBindings` and `ImportBindings` |
| ImportResolution.MapOf | src/flowslice/core/import_resolver.py:98-132 | a dictionary filled from bindings in order; its property is `ImportResolution.MapOfLast` |
| ImportResolution.ImportMapOf | src/flowslice/core/import_resolver.py:98-132 | the result of `parse_imports`; `ImportResolution.ImportResolver.ParseImports` computes it |
| ImportResolution.MapOfLast | src/flowslice/core/import_resolver.py:98-132 | a name is in the import map exactly when some binding names it, and it holds the last such binding |
| ImportResolution.FirstDef | src/flowslice/core/import_resolver.py:167-170 | the first definition of the name in a list of statements, and `None` exactly when there is none |
| ImportResolution.FindFunctionDef | src/flowslice/core/import_resolver.py:155-170 | `find_function_def` returns a walked definition with that name, and `None` exactly when the tree has none |
| ImportResolution.FunctionSource | src/flowslice/core/import_resolver.py:172-197 | `resolve_function_source` succeeds exactly when the name is imported, its file parses and defines the original name; it returns that file and that definition |
| ImportResolution.ImportResolver.constructor | src/flowslice/core/import_resolver.py:11-19 | a resolver starts with an empty cache |
| ImportResolution.ImportResolver.GetAst | src/flowslice/core/import_resolver.py:134-153 | `get_ast` returns the file's parse; a cached tree leaves the cache unchanged, a new parse is cached, a failure caches nothing |
| ImportResolution.ImportResolver.TraceReexport | src/flowslice/core/import_resolver.py:52-96 | tracing through the cache returns what `Traced` describes |
| ImportResolution.ImportResolver.ParseImports | src/flowslice/core/import_resolver.py:98-132 | `parse_imports` returns the map of the file's bindings, taken in walk order |
| ImportResolution.ImportResolver.BindStatement | src/flowslice/core/import_resolver.py:111-130 | one statement adds its bindings to the map |
| ImportResolution.ImportResolver.BindFrom | src/flowslice/core/import_resolver.py:112-121 | the alias loop of a `from` import adds one traced binding per alias |
| ImportResolution.ImportResolver.ResolveFunctionSource | src/flowslice/core/import_resolver.py:172-197 | the method returns what `FunctionSource` describes |
| ImportResolution.ScanStatements | src/flowslice/core/import_resolver.py:72-93 | the statement loop of `_trace_reexport` stops at the first statement that re-exports |
| ImportResolution.ScanAliases | src/flowslice/core/import_resolver.py:75-93 | the alias loop looks for `sub.py` first, then `sub/__init__.py` |
| ImportResolution.BindImport | src/flowslice/core/import_resolver.py:124-130 | the alias loop of `import m1, m2` adds the bindings of the modules that resolve |
| Tracking.Pick | src/flowslice/core/slicer.py:288 | `list(s)[0]` is an element of a non-empty set, whatever the listing order |
| Tracking.SetRepr | src/flowslice/core/slicer.py:228 | a set formatted into a string: `set()` when empty, otherwise braces around the items |
| Tracking.CodeAt | src/flowslice/core/slicer.py:615 | the source line of a statement, or "" beyond the end of the file |
| Tracking.ParamMapping | src/flowslice/core/slicer.py:430-436 | `param_mapping`; its properties are `Tracking.ParamMappingKeys` and `Tracking.NoRelevantNoMapping`, and `SlicerVisitors.BindParameters` computes it |
| Tracking.ParamMappingKeys | src/flowslice/core/slicer.py:430-436 | a parameter is bound exactly when an argument in its position mentions a relevant name |
| Tracking.NoRelevantNoMapping | src/flowslice/core/slicer.py:486-492 | with no relevant names, nothing is bound |
| Tracking.FirstTargetName | src/flowslice/core/slicer.py:616-618 | the first target is a plain name exactly when an assignment has one to add |
| Tracking.WithNodes | src/flowslice/core/slicer.py:689-707 | at most one node per `with` item |
| Tracking.TrackBackwardAllStep | src/flowslice/core/slicer.py:541-547 | a callee's body is tracked backward one statement after another, with the names carried along |
| Tracking.TrackForwardAllStep | src/flowslice/core/slicer.py:559-565 | a callee's body is tracked forward one statement after another, with the names carried along |
| Tracking.CalleeNode | src/flowslice/core/slicer.py:621-631 | a node of a callee: its file, line, function, code and the tracked names it uses; `Tracking.TrackForwardEmitted` and `Tracking.TrackBackwardAllLabelled` state the labels of what is emitted |
| Tracking.TrackForward | src/flowslice/core/slicer.py:592-719 | `_track_statement_forward`; its properties are `TrackForwardGrows`, `TrackForwardEmitted` and `TrackForwardSimple`, and `SlicerVisitors.TrackStatementForward` computes it |
| Tracking.TrackForwardGrows | src/flowslice/core/slicer.py:592-719 | forward tracking in a callee never forgets a name |
| Tracking.TrackForwardAllGrows | src/flowslice/core/slicer.py:592-719 | forward tracking of a block never forgets a name |
| Tracking.WithNodesEmitted | src/flowslice/core/slicer.py:689-707 | each `with` node belongs to the callee, is at the statement's line, and depends on the tracked names its context mentions |
| Tracking.TrackForwardEmitted | src/flowslice/core/slicer.py:592-719 | every node forward tracking emits belongs to the callee's file and function, and depends on some tracked names, all named in its expression |
| Tracking.TrackForwardAllEmitted | src/flowslice/core/slicer.py:592-719 | the same for a whole block |
| Tracking.TrackForwardSimple | src/flowslice/core/slicer.py:610-677 | an assignment, return or call statement is emitted exactly when its expression meets the tracked names; only an emitted assignment makes its first plain target tracked |
| Tracking.RedefinedTargetsGrows | src/flowslice/core/slicer.py:798-803 | the redefinition loop only adds right-hand names |
| Tracking.TrackBackward | src/flowslice/core/slicer.py:721-803 | `_track_statement_backward`; its properties are `TrackBackwardGrows`, `TrackBackwardAssign` and `RedefinedAllTargets`, and `SlicerVisitors.TrackStatementBackward` computes it |
| Tracking.TrackBackwardGrows | src/flowslice/core/slicer.py:721-803 | backward tracking never forgets a name, and emits at most one node per statement |
| Tracking.TrackBackwardAssign | src/flowslice/core/slicer.py:739-772 | a tracked assignment makes its first target and every right-hand name tracked |
| Tracking.RedefinedAllTargets | src/flowslice/core/slicer.py:798-803 | an assignment to a tracked name pulls in its whole right-hand side |
| Tracking.TrackBackwardAllGrows | src/flowslice/core/slicer.py:531-547 | over a block: names only grow, and at most one node per statement |
| Tracking.TrackBackwardAllLabelled | src/flowslice/core/slicer.py:531-547 | every node backward tracking emits carries the callee's file and function |
| VisitorModel.InitialState | src/flowslice/core/slicer.py:14-43 | a fresh visitor has no nodes, is at `<module>` and has not started; it tracks the variable as relevant when backward, as affected otherwise |
| VisitorModel.ParamNodes | src/flowslice/core/slicer.py:51-64 | reporting parameters only appends nodes |
| VisitorModel.AssignBackward | src/flowslice/core/slicer.py:74-114 | the backward target loop changes only nodes and relevant names, and both only grow |
| VisitorModel.BackwardTarget | src/flowslice/core/slicer.py:76-114 | one backward target changes only nodes and relevant names, and both only grow |
| VisitorModel.BackwardTargetReports | src/flowslice/core/slicer.py:76-114 | a target that is not a relevant name changes nothing; a relevant name target first appends an `assignment` node for its name whose dependencies are the most specific paths of the right-hand names, and adds all right-hand names, unfiltered, to the relevant set |
| VisitorModel.BackwardAssignReports | src/flowslice/core/slicer.py:72-114 | a backward `x = value` with `x` relevant changes nothing below the target line; at or above it, it appends the node of `x` with the filtered dependencies and makes the right-hand names relevant |
| VisitorModel.BackwardDottedDependencies | src/flowslice/core/slicer.py:87-114 | for `x = a.b` the node lists only `a.b`, while both `a.b` and `a` become relevant |
| VisitorModel.AssignForward | src/flowslice/core/slicer.py:116-143 | the forward target loop changes only nodes and affected names, and both only grow |
| VisitorModel.AssignOwn | src/flowslice/core/slicer.py:72-145 | `visit_Assign` leaves the function stack alone; afterwards the visitor has started exactly when it had already started or, not being backward, the assignment is at or below the criterion line; the first start records the current function as the target function, which nothing else changes |
| VisitorModel.ExprStmtOwn | src/flowslice/core/slicer.py:147-203 | `visit_Expr` changes only nodes and relevant names |
| VisitorModel.ForOwn | src/flowslice/core/slicer.py:205-258 | `visit_For` changes only nodes and tracked names |
| VisitorModel.CallArgs | src/flowslice/core/slicer.py:268-298 | the argument loop of `visit_Call` only appends nodes |
| VisitorModel.CallOwn | src/flowslice/core/slicer.py:260-298 | `visit_Call` only appends nodes |
| VisitorModel.VisitExpr | src/flowslice/core/slicer.py:260-298 | visiting an expression only appends nodes |
| VisitorModel.VisitFunctionDef | src/flowslice/core/slicer.py:45-70 | `visit_FunctionDef` pops what it pushed |
| VisitorModel.VisitStmt | src/flowslice/core/slicer.py:45-258 | visiting a statement returns the function stack as it found it |
| VisitorModel.VisitStmts | src/flowslice/core/slicer.py:45-258 | the same for a block |
| VisitorModel.VisitModule | src/flowslice/core/slicer.py:900 | the same for a module |
| VisitorModel.VisitStmtGrows | src/flowslice/core/slicer.py:45-258 | visiting a statement only appends nodes and adds names; a started forward visitor stays started in its target function; it ends in the function it started in |
| VisitorModel.FunctionDefGrows | src/flowslice/core/slicer.py:45-70 | the same for a definition |
| VisitorModel.ForGrows | src/flowslice/core/slicer.py:205-258 | the same for `for` |
| VisitorModel.WhileGrows | src/flowslice/core/slicer.py:45-258 | the same for `while` |
| VisitorModel.IfGrows | src/flowslice/core/slicer.py:45-258 | the same for `if` |
| VisitorModel.TryGrows | src/flowslice/core/slicer.py:45-258 | the same for `try` |
| VisitorModel.VisitStmtsGrows | src/flowslice/core/slicer.py:45-258 | the same for a block |
| VisitorModel.VisitParts | src/flowslice/core/slicer.py:258 | the generic visit of a statement of another kind, field by field in order, returns the function stack as it found it |
| VisitorModel.VisitPart | src/flowslice/core/slicer.py:258 | the same for one field |
| VisitorModel.VisitPartsGrows | src/flowslice/core/slicer.py:258 | the generic visit of a statement's fields only appends nodes and adds names, and ends in the function it started in |
| VisitorModel.VisitPartGrows | src/flowslice/core/slicer.py:258 | the same for one field |
| VisitorModel.ExprInert | src/flowslice/core/slicer.py:265 | `visit_Call` tests for FORWARD, so visiting expressions changes nothing in a backward or both-ways visitor |
| VisitorModel.LocalCall | src/flowslice/core/slicer.py:408-445 | `_analyze_local_function_call`; its labelling is stated by `VisitorModel.LocalCallSites`, and `SlicerVisitors.SlicerVisitor.AnalyzeLocalFunctionCall` computes it |
| VisitorModel.CrossFileCall | src/flowslice/core/slicer.py:447-505 | `_analyze_cross_file_call`, falling back to a local call; its labelling is stated by `VisitorModel.CallSites`, and `SlicerVisitors.SlicerVisitor.AnalyzeCrossFileCall` computes it |
| VisitorModel.CallSites | src/flowslice/core/slicer.py:408-505 | every node a followed call reports is labelled with a function of the visited file or, for a cross-file call, with an imported name's file and function |
| VisitorModel.LocalCallSites | src/flowslice/core/slicer.py:408-445 | every node of a local call is labelled with the visited file's name and a function defined in it |
| VisitorModel.CallArgDirect | src/flowslice/core/slicer.py:268-298 | one argument of a forward `visit_Call` appends nodes only inside the target function after the criterion, or nodes of a followed callee |
| VisitorModel.CallArgsDirect | src/flowslice/core/slicer.py:268-298 | the same for the whole argument loop |
| VisitorModel.ForwardDirectStmt | src/flowslice/core/slicer.py:116-298 | in every environment, a forward visitor has started after a statement exactly when it had started before or the statement holds an assignment at or below the criterion line; it reports nothing before it has started, and each appended node is in the visited file and the target's function, or, with a resolver, in a function a call was followed into |
| VisitorModel.ForwardDirectStmts | src/flowslice/core/slicer.py:116-298 | the same for a block |
| VisitorModel.ForwardDirectParts | src/flowslice/core/slicer.py:258 | the same for the fields of a statement of another kind |
| VisitorModel.ForwardDirectPart | src/flowslice/core/slicer.py:258 | the same for one field |
| VisitorModel.VisitStmtStarts | src/flowslice/core/slicer.py:116-119 | in every direction, a visitor has started after a statement exactly when it had started before or, not being backward, the statement holds an assignment at or below the criterion line at any depth |
| VisitorModel.FunctionDefStarts | src/flowslice/core/slicer.py:45-70 | the same for a definition |
| VisitorModel.VisitStmtsStarts | src/flowslice/core/slicer.py:116-119 | the same for a block |
| VisitorModel.VisitHandlersStarts | src/flowslice/core/slicer.py:116-119 | the same for the handlers of a `try` |
| VisitorModel.VisitPartsStarts | src/flowslice/core/slicer.py:258 | the same for the fields of a statement of another kind |
| VisitorModel.VisitPartStarts | src/flowslice/core/slicer.py:258 | the same for one field |
| VisitorModel.ForwardNeedsCriterion | src/flowslice/core/slicer.py:116-122 | a forward visit of a module with no assignment at or below the criterion line reports no node |
| VisitorModel.ForwardWithoutResolver | src/flowslice/core/slicer.py:265-298 | without a resolver a forward visitor follows no call: every appended node is in the visited file and the target's function |
| VisitorModel.AssignBackwardAbove | src/flowslice/core/slicer.py:74-114 | an assignment at or above the target line reports lines of the visited file at or above the target line, or nodes of a function it follows a call into |
| VisitorModel.BackwardTargetAbove | src/flowslice/core/slicer.py:76-114 | the same for one target |
| VisitorModel.BackwardAboveStmt | src/flowslice/core/slicer.py:45-258 | in every environment, a backward visitor reports lines of the visited file at or above the target line, `parameter` nodes, and nodes of the functions it follows calls into, and nothing else |
| VisitorModel.BackwardAboveStmts | src/flowslice/core/slicer.py:45-258 | the same for a block |
| VisitorModel.BackwardAboveParts | src/flowslice/core/slicer.py:258 | the same for the fields of a statement of another kind |
| VisitorModel.BackwardAbovePart | src/flowslice/core/slicer.py:258 | the same for one field |
| VisitorModel.BackwardWithoutCallees | src/flowslice/core/slicer.py:74-114 | with no imports and no functions in the file, every backward node is in the visited file, at or above the target line or a `parameter` |
| SlicerVisitors.BindParameters | src/flowslice/core/slicer.py:430-436 | the `param_mapping` loop computes the mapping that `ParamMappingKeys` describes |
| SlicerVisitors.SlicerVisitor.constructor | src/flowslice/core/slicer.py:14-43 | the visitor keeps its arguments and starts in `InitialState` |
| SlicerVisitors.SlicerVisitor.VisitModule | src/flowslice/core/slicer.py:900 | `visit(tree)` changes the state as `VisitModule` says |
| SlicerVisitors.SlicerVisitor.VisitStatement | src/flowslice/core/slicer.py:45-258 | dispatch to the statement's visit method changes the state as `VisitStmt` says |
| SlicerVisitors.SlicerVisitor.VisitConditional | src/flowslice/core/slicer.py:45-258 | the generic visit of `while` and `if`, as `VisitStmt` says |
| SlicerVisitors.SlicerVisitor.VisitTry | src/flowslice/core/slicer.py:45-258 | the generic visit of `try`, as `VisitStmt` says |
| SlicerVisitors.SlicerVisitor.VisitBlock | src/flowslice/core/slicer.py:45-258 | a block, as `VisitStmts` says |
| SlicerVisitors.SlicerVisitor.VisitHandlers | src/flowslice/core/slicer.py:45-258 | the handlers of a `try`, in order |
| SlicerVisitors.SlicerVisitor.VisitParts | src/flowslice/core/slicer.py:258 | the generic visit of a statement of another kind, as `VisitorModel.VisitParts` says |
| SlicerVisitors.SlicerVisitor.VisitFunctionDef | src/flowslice/core/slicer.py:45-70 | `visit_FunctionDef`, as `VisitFunctionDef` says |
| SlicerVisitors.SlicerVisitor.EnterFunction | src/flowslice/core/slicer.py:47-64 | pushes the function and, when backward, reports its relevant parameters |
| SlicerVisitors.SlicerVisitor.LeaveFunction | src/flowslice/core/slicer.py:67-70 | pops the function, and the top of the stack becomes current, or `<module>` |
| SlicerVisitors.SlicerVisitor.ReportParameters | src/flowslice/core/slicer.py:51-64 | one `parameter` node per relevant parameter |
| SlicerVisitors.SlicerVisitor.VisitAssign | src/flowslice/core/slicer.py:72-145 | `visit_Assign`, as `VisitStmt` says |
| SlicerVisitors.SlicerVisitor.AssignHeader | src/flowslice/core/slicer.py:72-143 | the part of `visit_Assign` before the generic visit |
| SlicerVisitors.SlicerVisitor.AssignBackwardTargets | src/flowslice/core/slicer.py:74-114 | the backward target loop |
| SlicerVisitors.SlicerVisitor.AssignBackwardTarget | src/flowslice/core/slicer.py:76-114 | one backward target: report, follow a call, add the right-hand names |
| SlicerVisitors.SlicerVisitor.AssignForwardTargets | src/flowslice/core/slicer.py:116-143 | the forward target loop |
| SlicerVisitors.SlicerVisitor.VisitExprStatement | src/flowslice/core/slicer.py:147-203 | `visit_Expr`, as `VisitStmt` says |
| SlicerVisitors.SlicerVisitor.ExprStmtHeader | src/flowslice/core/slicer.py:147-201 | the part of `visit_Expr` before the generic visit |
| SlicerVisitors.SlicerVisitor.VisitFor | src/flowslice/core/slicer.py:205-258 | `visit_For`, as `VisitStmt` says |
| SlicerVisitors.SlicerVisitor.ForHeader | src/flowslice/core/slicer.py:207-256 | the `for loop` node, before the generic visit |
| SlicerVisitors.SlicerVisitor.VisitExpression | src/flowslice/core/slicer.py:260-298 | visiting an expression, as `VisitExpr` says |
| SlicerVisitors.SlicerVisitor.VisitExpressions | src/flowslice/core/slicer.py:260-298 | a list of expressions, in order |
| SlicerVisitors.SlicerVisitor.VisitComprehensions | src/flowslice/core/slicer.py:260-298 | the generators of a comprehension, in order |
| SlicerVisitors.SlicerVisitor.VisitItems | src/flowslice/core/slicer.py:260-298 | the items of a `with`, in order |
| SlicerVisitors.SlicerVisitor.VisitCall | src/flowslice/core/slicer.py:260-298 | `visit_Call`, as `VisitExpr` says |
| SlicerVisitors.SlicerVisitor.AnalyzeLocalFunctionCall | src/flowslice/core/slicer.py:408-445 | appends the nodes of slicing the local callee from the bound parameters, and changes nothing else |
| SlicerVisitors.SlicerVisitor.AnalyzeCrossFileCall | src/flowslice/core/slicer.py:447-505 | appends the nodes of slicing the imported callee in its own file, and changes nothing else |
| SlicerVisitors.SliceFunctionForward | src/flowslice/core/slicer.py:507-529 | the callee's body tracked forward from the bound parameters |
| SlicerVisitors.SliceFunctionBackward | src/flowslice/core/slicer.py:531-547 | the callee's body tracked backward from the bound parameters |
| SlicerVisitors.TrackStatementForward | src/flowslice/core/slicer.py:592-719 | `_track_statement_forward` returns the nodes and tracked names of `TrackForward` |
| SlicerVisitors.TrackWithItems | src/flowslice/core/slicer.py:689-707 | the `with` loop emits `WithNodes` |
| SlicerVisitors.TrackSubStatements | src/flowslice/core/slicer.py:680-719 | the recursion over a compound statement's blocks |
| SlicerVisitors.TrackStatementBackward | src/flowslice/core/slicer.py:721-803 | `_track_statement_backward` returns the nodes and tracked names of `TrackBackward` |
| SlicerVisitors.EmitBackward | src/flowslice/core/slicer.py:739-795 | the part before the walk |
| SlicerVisitors.WalkRedefinitions | src/flowslice/core/slicer.py:797-803 | the walk loop |
| SlicerVisitors.RedefineTargets | src/flowslice/core/slicer.py:764-772 | the redefinition loop over targets |
| Slicing.FunctionDefsOf | src/flowslice/core/slicer.py:821-834 | `_find_function_definitions` over the walked statements; its property is `Slicing.FunctionDefsLast`, and `Slicing.Slicer.FindFunctionDefinitions` computes it |
| Slicing.FunctionDefsLast | src/flowslice/core/slicer.py:821-834 | a name is recorded exactly when something defines it, with its last definition in walk order |
| Slicing.LocalAndImportedLookupAgree | src/flowslice/core/slicer.py:821-834 | for a name defined once, the local lookup and the imported lookup find the same definition |
| Slicing.AddUnseen | src/flowslice/core/slicer.py:903-907 | the de-duplicating loop over one pass's nodes; its properties are `AddUnseenKeeps`, `AddOneKeeps` and `AddUnseenFrom`, and `Slicing.AddNewNodes` computes it |
| Slicing.AddUnseenKeeps | src/flowslice/core/slicer.py:903-907 | de-duplication keeps the seen keys equal to the keys collected, only appends, and sees every key offered |
| Slicing.AddOneKeeps | src/flowslice/core/slicer.py:903-907 | keeping one node with a new key keeps the collection consistent |
| Slicing.AddUnseenFrom | src/flowslice/core/slicer.py:903-907 | de-duplication invents no node |
| Slicing.Pass | src/flowslice/core/slicer.py:888-900 | one backward pass: a fresh backward visitor, given the names accumulated so far, visits the whole file; its property is `Slicing.PassGrows` |
| Slicing.PassGrows | src/flowslice/core/slicer.py:888-900 | a pass never forgets a name it started from |
| Slicing.BackwardRunFrom | src/flowslice/core/slicer.py:879-913 | the multi-pass loop of `slice`, at most ten passes, ending after a pass past the first finds no new name; its properties are `BackwardRunPasses`, `BackwardRunFixpoint`, `BackwardRunDistinct` and `BackwardRunAbove` |
| Slicing.BackwardRunPasses | src/flowslice/core/slicer.py:879-913 | the loop runs at least two passes and at most ten |
| Slicing.BackwardRunFixpoint | src/flowslice/core/slicer.py:879-913 | the names only grow, and a loop that stops before ten passes has reached a fixpoint |
| Slicing.BackwardRunDistinct | src/flowslice/core/slicer.py:879-913 | no two collected nodes share file, line, variable and operation |
| Slicing.BackwardRunAbove | src/flowslice/core/slicer.py:879-913 | every node collected over all passes is a line of the target file at or above the target line, a `parameter` node, or a node of a callee |
| Slicing.FileLineTotalPreorder | src/flowslice/core/slicer.py:919 | `(file, line)` tuples are totally preordered |
| Slicing.IndexOf | src/flowslice/core/slicer.py:944 | `list.index` gives the first position of an equal value |
| Slicing.ForwardOrderAsWritten | src/flowslice/core/slicer.py:937-945 | `sorted(forward_visitor.nodes, key=sort_key)` as written, other-file nodes keyed by `nodes.index(n)`; its properties are `Slicing.ForwardOrderAgrees` and `Slicing.ForwardOrderGroupsDuplicates` |
| Slicing.ForwardOrder | src/flowslice/core/slicer.py:935-945 | the intended forward order: target-file nodes by line, then the others as found; its property is `Slicing.ForwardOrderIntended` |
| Slicing.ForwardOrderIntended | src/flowslice/core/slicer.py:935-945 | the forward order is a permutation: the target file's nodes first, sorted by line, then the others in the order found |
| Slicing.ForwardOrderAgrees | src/flowslice/core/slicer.py:935-945 | when every node is in the target file, the key as written and the intended order give the same slice |
| Slicing.AllInFile | src/flowslice/core/slicer.py:935-945 | when every node is in the target file, none is set apart as another file's |
| Slicing.ForwardSliceAsWritten | src/flowslice/core/slicer.py:921-945 | without cross-file slicing, the forward slice is exactly the one the key as written gives |
| Slicing.ForwardOrderGroupsDuplicates | src/flowslice/core/slicer.py:937-945 | the key as written turns `A, B, A, B` into `A, A, B, B`; the intended order keeps `A, B, A, B` |
| Slicing.FullPath | src/flowslice/core/slicer.py:855-857 | `root_path / file_path` when it exists, else the path as given under the working directory; `Slicing.SliceShape` and `Cli.ExitStatus` state what is read through it |
| Slicing.SliceEnv | src/flowslice/core/slicer.py:855-900 | the settings of the visitors of one slice: the file's lines, its name, the imports (only with a resolver) and the file's function definitions; `Slicing.SliceShape` states the slices built from it |
| Slicing.SliceOf | src/flowslice/core/slicer.py:836-947 | `Slicer.slice`: an error for an unreadable or unparsable file, else the slices the direction asks for; its properties are `Slicing.SliceShape` and `Slicing.ForwardSliceAsWritten`, and `Slicing.Slicer.Slice` computes it |
| Slicing.SliceShape | src/flowslice/core/slicer.py:836-947 | the slice fails exactly when the file cannot be read or parsed. Otherwise it holds only the sections the direction asks for; the backward section is sorted by file and line with no repeated key; the forward section is a permutation of the forward visitor's nodes |
| Slicing.AddNewNodes | src/flowslice/core/slicer.py:903-907 | the de-duplicating loop computes `AddUnseen` |
| Slicing.Slicer.constructor | src/flowslice/core/slicer.py:809-819 | the slicer keeps its settings, and cross-file slicing comes with a fresh resolver with an empty cache |
| Slicing.FunctionDefsStep | src/flowslice/core/slicer.py:821-834 | each statement of the walk records its definition under its name, or leaves the map alone |
| Slicing.Slicer.FindFunctionDefinitions | src/flowslice/core/slicer.py:821-834 | `_find_function_definitions` computes `FunctionDefsOf` over the walk |
| Slicing.Slicer.Slice | src/flowslice/core/slicer.py:836-947 | `slice` returns what `SliceOf` describes |
| Slicing.Slicer.SliceBackward | src/flowslice/core/slicer.py:879-919 | the multi-pass loop returns the collected nodes of `BackwardRunFrom` |
| TreeMerge.Absorb | src/flowslice/formatters/tree.py:35-45 | what one later occurrence does to the kept node: dependencies united and sorted, a different non-empty operation noted; its properties are `TreeMerge.AbsorbNote` and `TreeMerge.AbsorbInto` |
| TreeMerge.MergeByLine | src/flowslice/formatters/tree.py:12-47 | `_merge_nodes_by_line` on node values; its properties are `MergeHeads`, `MergeShape`, `MergeDependencies` and `MergeContext`, and `TreeMerge.MergeNodesByLine` computes it in place |
| TreeMerge.KeyIndex | src/flowslice/formatters/tree.py:25-31 | the first position of a `(file, line)` key, and `None` exactly when the key is absent |
| TreeMerge.MergeHeads | src/flowslice/formatters/tree.py:12-47 | the merged list keeps, position by position, the first occurrence's file, line, function, code, variable and operation |
| TreeMerge.FirstDistinct | src/flowslice/formatters/tree.py:28-32 | first occurrences have distinct keys and are no more than the nodes |
| TreeMerge.FirstCovers | src/flowslice/formatters/tree.py:28-32 | every node's key has a first occurrence |
| TreeMerge.FirstAreFirst | src/flowslice/formatters/tree.py:28-32 | each first occurrence is an input node with no earlier node of its key |
| TreeMerge.MergeShape | src/flowslice/formatters/tree.py:12-47 | one node per line, in order of first occurrence, with the first occurrence's head fields |
| TreeMerge.MergeDependencies | src/flowslice/formatters/tree.py:35-38 | a line seen once keeps its dependencies; a line seen more often holds every dependency of every occurrence, each once, in increasing order |
| TreeMerge.OtherOperations | src/flowslice/formatters/tree.py:41-45 | the operations of the later occurrences of a line that are non-empty and differ from the first occurrence's, in order |
| TreeMerge.NotePrefix | src/flowslice/formatters/tree.py:42-45 | the context is started with "Also: ", or with the old context and ", ", never empty |
| TreeMerge.AbsorbNote | src/flowslice/formatters/tree.py:41-45 | folding one later occurrence in appends its operation to the note exactly when it is non-empty and differs from the first occurrence's |
| TreeMerge.MergeContext | src/flowslice/formatters/tree.py:41-45 | a merged line keeps its first occurrence's context when no later occurrence has a different non-empty operation; otherwise the context is "Also: " (or the old context and ", ") followed by every such operation, in order |
| TreeMerge.AbsorbInto | src/flowslice/formatters/tree.py:35-45 | folding a later occurrence in keeps the head fields and unites the dependencies |
| TreeMerge.MergeNodesByLine | src/flowslice/formatters/tree.py:12-47 | the returned references, followed through the caller's list, read as the merge; untouched nodes stay as they were |
| TreeMerge.SectionsShown | src/flowslice/formatters/tree.py:79-80 | the backward section shows each line once, sorted by file and line, as a permutation of the merge; the forward section shows each line once in first-occurrence order (lines 127-128) |
| JsonFormat.StrArray | src/flowslice/formatters/json.py:77-78 | a list of strings as a JSON array, item by item |
| JsonFormat.FromStrArray | src/flowslice/formatters/json.py:77-78 | reading an array back gives strings item by item |
| JsonFormat.StrArrayRoundTrip | src/flowslice/formatters/json.py:77-78 | a list of strings survives the round trip |
| JsonFormat.NodeToDict | src/flowslice/formatters/json.py:68-81 | `_node_to_dict`: one node as a dictionary with stripped code, dependencies only when there are some, context only when set; its properties are `NodeToDictKeys`, `NodeToDictOptional`, `NodeToDictWellFormed`, `NodeDictRoundTrip` and `NodeToDictInjective` |
| JsonFormat.NodeToDictKeys | src/flowslice/formatters/json.py:68-81 | the six required keys come first in order, then `dependencies` and `context` when present |
| JsonFormat.NodeToDictOptional | src/flowslice/formatters/json.py:77-81 | `dependencies` is there exactly when the list is non-empty, `context` exactly when set and non-empty |
| JsonFormat.NodeToDictWellFormed | src/flowslice/formatters/json.py:59-83 | every key listed once, and the listed keys are those with entries |
| JsonFormat.NodeDictRoundTrip | src/flowslice/formatters/json.py:59-83 | a node's dictionary reads back as the node with its code stripped and an empty context dropped |
| JsonFormat.NodeToDictInjective | src/flowslice/formatters/json.py:59-83 | nodes with the same dictionary differ only in whitespace around the code and an empty context |
| JsonFormat.TopEntries | src/flowslice/formatters/json.py:26-54 | the top-level dictionary has an entry for each listed key and no other |
| JsonFormat.Format | src/flowslice/formatters/json.py:26-54 | `JSONFormatter.format` before serialisation: the target, each non-empty slice the direction shows, and the statistics; its properties are `FormatTarget`, `TopKeys`, `FormatWellFormed`, `FormatKeys`, `FormatBackward`, `FormatForward` and `FormatStatistics` |
| JsonFormat.FormatTarget | src/flowslice/formatters/json.py:26-32 | `target` is the first key and holds the target |
| JsonFormat.TargetFields | src/flowslice/formatters/json.py:27-31 | the target holds the result's file, line and variable |
| JsonFormat.TopKeys | src/flowslice/formatters/json.py:26-54 | `target` first, `statistics` last, a slice key exactly when that section is shown, no key twice |
| JsonFormat.FormatWellFormed | src/flowslice/formatters/json.py:26-54 | the output is a well-formed object ending with `statistics` |
| JsonFormat.FormatKeys | src/flowslice/formatters/json.py:26-54 | the only top-level keys are the four |
| JsonFormat.FormatBackward | src/flowslice/formatters/json.py:34-37 | `backward_slice` is there exactly when the direction shows it and it is non-empty; its items read back as the shown nodes |
| JsonFormat.FormatForward | src/flowslice/formatters/json.py:39-42 | `forward_slice` likewise |
| JsonFormat.ReadItemsRoundTrip | src/flowslice/formatters/json.py:35-42 | a list of node dictionaries reads back as the shown nodes |
| JsonFormat.FormatStatistics | src/flowslice/formatters/json.py:50-54 | the statistics are there for any direction, and do not depend on it |
| JsonFormat.Statistics | src/flowslice/formatters/json.py:45-54 | the `statistics` object over both slices; its fields are stated by `StatisticsFields`, `FilesInvolved` and `FunctionsInvolved` |
| JsonFormat.StatisticsFields | src/flowslice/formatters/json.py:45-54 | `total_lines` counts both slices; the files and functions are the sorted distinct values over both slices |
| JsonFormat.InvolvedSpec | src/flowslice/formatters/json.py:45-53 | each file and function of a node of either slice is listed exactly once, in increasing order, and nothing else is |
| JsonFormat.FilesInvolved | src/flowslice/formatters/json.py:45-52 | the same for files |
| JsonFormat.FunctionsInvolved | src/flowslice/formatters/json.py:46-53 | the same for functions |
| Cli.ExitCode | src/flowslice/cli/main.py:15-73 | the status is 0 exactly for an accepted run, 1 on every validation error |
| Cli.Components | src/flowslice/core/slicer.py:856-858 | the components of a path as `Path` keeps them: no empty and no `.` component, and every other one kept |
| Cli.PathOf | src/flowslice/core/slicer.py:856-858 | `Path(file_path)`: each component is one of the string's `/`-separated parts, never `.` |
| Cli.ExitStatus | src/flowslice/cli/main.py:15-73 | the process status: 1 for every rejected command line, and for an accepted one, whose file exists under the working directory, 0 exactly when `Slicer().slice` with the working directory as root can read and parse that file, 1 when it raises |
| Cli.FormatterFor | src/flowslice/cli/main.py:60-68 | graph, json and dot select their formatters, and every other name selects the tree |
| Cli.TooFewArguments | src/flowslice/cli/main.py:17-19 | fewer than two arguments print the usage and exit with status 1 |
| Cli.ParseCriterion | src/flowslice/cli/main.py:42-48 | the criterion `file:line:variable`: exactly three parts at ':' with an integer middle, else the ValueError (`None`); its properties are `Cli.CriterionAccepted` and `Cli.CriterionRoundTrip` |
| Cli.Validate | src/flowslice/cli/main.py:15-68 | `main` up to the slicer call: usage, direction, format, criterion and file checks in that order, or an accepted run with its settings and formatter; its properties are `Cli.TooFewArguments`, `Cli.CheckOrder`, `Cli.RunFields`, `Cli.Defaults` and `Cli.ValidateRoundTrip` |
| Cli.CheckOrder | src/flowslice/cli/main.py:22-57 | each error happens exactly when the validations before it pass and its own fails, in the order direction, format, criterion, file |
| Cli.RunFields | src/flowslice/cli/main.py:22-68 | an accepted run carries the criterion's parts, an existing file, the lower-cased direction and the formatter of the format |
| Cli.Defaults | src/flowslice/cli/main.py:23-24 | without a direction and a format, the run is in both directions as a tree |
| Cli.CriterionAccepted | src/flowslice/cli/main.py:42-48 | the criterion is accepted exactly when it has three parts and the middle one is an integer |
| Cli.NatDigits | src/flowslice/cli/main.py:44 | `str(n)` for a natural number: non-empty decimal digits |
| Cli.NatDigitsValue | src/flowslice/cli/main.py:44 | the digits read back as the number |
| Cli.IntStringRoundTrip | src/flowslice/cli/main.py:44 | `int(str(n)) == n`, and `str(n)` holds no colon |
| Cli.DigitsParse | src/flowslice/cli/main.py:44 | digits alone parse as their value |
| Cli.NegativeRoundTrip | src/flowslice/cli/main.py:44 | negative numbers survive the round trip |
| Cli.IntStringNoColon | src/flowslice/cli/main.py:43 | a number's text holds no colon, so it stays one part of the criterion |
| Cli.CriterionRoundTrip | src/flowslice/cli/main.py:42-48 | `file:line:variable`, with no colon in the file or the variable, parses back as its three parts |
| Cli.ValidateRoundTrip | src/flowslice/cli/main.py:15-68 | a command line written for an existing file, a direction and an accepted format is accepted with exactly those settings |
| Cli.LowerLowercase | src/flowslice/cli/main.py:28-35 | lower-casing leaves text without capitals unchanged |
| PrototypeModel.PlainNames | flowslice_poc.py:303-312 | the prototype's collector finds only plain identifiers: no dot, never empty |
| PrototypeModel.PlainNamesOfChain | flowslice_poc.py:303-312 | a chain `a.b.c` contributes only `a` |
| PrototypeModel.UndottedCollected | flowslice_poc.py:303-312 | every undotted name the engine's collector finds, the prototype's finds too |
| PrototypeModel.ComprehensionNames | flowslice_poc.py:303-312 | the prototype also collects a comprehension's element and loop variable, which the engine leaves out |
| PrototypeModel.InitialState | flowslice_poc.py:107-121 | a fresh prototype slicer has no nodes, is at `<module>`, has not started, and tracks the variable by its direction |
| PrototypeModel.ParamNodes | flowslice_poc.py:127-141 | reporting parameters only appends nodes, all with the placeholder file |
| PrototypeModel.AssignOwn | flowslice_poc.py:146-188 | the prototype's `visit_Assign` before its generic visit; its properties are `PrototypeModel.OwnKeeps` and `PrototypeModel.BackwardAnyLine` |
| PrototypeModel.AssignBackward | flowslice_poc.py:148-165 | the backward target loop changes only nodes and relevant names, both growing |
| PrototypeModel.AssignForward | flowslice_poc.py:167-186 | the forward target loop changes only nodes and affected names, both growing |
| PrototypeModel.ExprStmtOwn | flowslice_poc.py:190-228 | `visit_Expr` changes only nodes and relevant names |
| PrototypeModel.ForOwn | flowslice_poc.py:230-267 | `visit_For` changes only nodes and tracked names; what a backward loop reports, at any line, is stated by `PrototypeModel.BackwardForAnyLine` |
| PrototypeModel.CallArgs | flowslice_poc.py:273-293 | the argument loop only appends nodes, with the placeholder file |
| PrototypeModel.CallOwn | flowslice_poc.py:269-293 | `visit_Call` only appends nodes, and none before a forward slicer starts |
| PrototypeModel.VisitExpr | flowslice_poc.py:269-293 | the same for any expression |
| PrototypeModel.VisitFunctionDef | flowslice_poc.py:123-144 | `visit_FunctionDef` pops what it pushed |
| PrototypeModel.VisitParts | flowslice_poc.py:123-293 | the generic visit of a statement of another kind, field by field in order, returns the function stack as it found it |
| PrototypeModel.VisitPartsKeeps | flowslice_poc.py:123-293 | that visit keeps the visit invariant, returns to its function, and starts forward slicing only at an assignment at or below the target line |
| PrototypeModel.VisitPartKeeps | flowslice_poc.py:123-293 | the same for one field |
| PrototypeModel.VisitStmt | flowslice_poc.py:123-267 | visiting a statement returns the function stack as it found it |
| PrototypeModel.OwnKeeps | flowslice_poc.py:146-267 | each statement's own part keeps the visit invariant; an assignment starts a forward slicer exactly when it is at or below the target line |
| PrototypeModel.VisitStmtKeeps | flowslice_poc.py:123-293 | visiting keeps the invariant, returns to its function, and starts forward slicing only at an assignment at or below the target line |
| PrototypeModel.VisitStmtsKeeps | flowslice_poc.py:123-293 | the same for a block |
| PrototypeModel.Run | flowslice_poc.py:339-347 | `slicer.visit(tree)` from a fresh slicer; its properties are `PrototypeModel.RunShape` and `PrototypeModel.ForwardNeedsCriterion` |
| PrototypeModel.RunShape | flowslice_poc.py:339-347 | every node of a run has the placeholder file; with no assignment at or below the target line, a forward run reports nothing |
| PrototypeModel.BackwardAnyLine | flowslice_poc.py:148-165 | the prototype reports a relevant assignment at any line, below the target too, and adds its right-hand names |
| PrototypeModel.BackwardForAnyLine | flowslice_poc.py:230-247 | the prototype also reports a `for` loop over a relevant name at any line, below the target too, with the iterable's plain names as dependencies and context, and makes them relevant |
| PrototypeModel.ForwardAnyFunction | flowslice_poc.py:167-186 | a started forward prototype reports assignments in any function |
| PrototypeModel.CallArgsReported | flowslice_poc.py:269-293 | one `passed to f()` node per argument that mentions a name checked against, at the call's line, and nothing else changes |
| PrototypeModel.Relabel | flowslice_poc.py:341-342 | every node gets the target file and nothing else changes |
| PrototypeModel.DirectionSliceShape | flowslice_poc.py:338-350 | a direction's slice is the relabelled nodes, sorted by line, as a permutation |
| PrototypeModel.SliceVariable | flowslice_poc.py:323-352 | `slice_variable`; its properties are `PrototypeModel.SliceVariableShape` and `PrototypeModel.SliceVariableOrdered`, and `Prototype.SliceVariable` computes it |
| PrototypeModel.SliceVariableShape | flowslice_poc.py:323-352 | failure exactly when the file cannot be read or parsed; otherwise the target, and a slice only for the directions the string names |
| PrototypeModel.SliceVariableOrdered | flowslice_poc.py:338-350 | both slices are sorted by line and carry the target file's name |
| PrototypeModel.ForwardNeedsCriterion | flowslice_poc.py:345-350 | with no assignment at or below the target line, the forward slice is empty |
| Prototype.Collect | flowslice_poc.py:307-311 | the collector adds exactly the expression's plain names |
| Prototype.CollectGenerators | flowslice_poc.py:307-311 | the generic visit of generators adds the names of their targets, iterables and conditions |
| Prototype.CollectAll | flowslice_poc.py:307-311 | the generic visit of sub-expressions adds all their names |
| Prototype.GetNamesFromExpr | flowslice_poc.py:303-312 | `_get_names_from_expr` returns exactly the plain names |
| Prototype.ArgNames | flowslice_poc.py:196-200 | the union of the names of every argument |
| Prototype.EnhancedSlicer.constructor | flowslice_poc.py:107-121 | the slicer keeps its arguments and starts in `InitialState` |
| Prototype.EnhancedSlicer.Visit | flowslice_poc.py:340 | `visit(tree)` changes the state as `VisitStmts` says |
| Prototype.EnhancedSlicer.SetFiles | flowslice_poc.py:341-342 | the relabelling loop sets every node's file and changes nothing else |
| Prototype.EnhancedSlicer.VisitStatement | flowslice_poc.py:123-267 | dispatch to the statement's visit method, as `VisitStmt` says |
| Prototype.EnhancedSlicer.VisitBlock | flowslice_poc.py:123-267 | a block, as `VisitStmts` says |
| Prototype.EnhancedSlicer.VisitHandlers | flowslice_poc.py:123-267 | the handlers of a `try` |
| Prototype.EnhancedSlicer.VisitParts | flowslice_poc.py:123-293 | the generic visit of a statement of another kind, as `PrototypeModel.VisitParts` says |
| Prototype.EnhancedSlicer.VisitFunctionDef | flowslice_poc.py:123-144 | `visit_FunctionDef`, as `VisitFunctionDef` says |
| Prototype.EnhancedSlicer.VisitAssign | flowslice_poc.py:146-188 | `visit_Assign`, as `VisitStmt` says |
| Prototype.EnhancedSlicer.AssignBackwardTargets | flowslice_poc.py:148-165 | the backward target loop |
| Prototype.EnhancedSlicer.AssignForwardTargets | flowslice_poc.py:167-186 | the forward target loop |
| Prototype.EnhancedSlicer.VisitExprStatement | flowslice_poc.py:190-228 | `visit_Expr`, as `VisitStmt` says |
| Prototype.EnhancedSlicer.VisitFor | flowslice_poc.py:230-267 | `visit_For`, as `VisitStmt` says |
| Prototype.EnhancedSlicer.VisitExpression | flowslice_poc.py:269-293 | visiting an expression, as `VisitExpr` says |
| Prototype.EnhancedSlicer.VisitExpressions | flowslice_poc.py:269-293 | a list of expressions, in order |
| Prototype.EnhancedSlicer.VisitComprehensions | flowslice_poc.py:269-293 | the generators of a comprehension |
| Prototype.EnhancedSlicer.VisitItems | flowslice_poc.py:269-293 | the items of a `with` |
| Prototype.EnhancedSlicer.VisitCall | flowslice_poc.py:269-293 | `visit_Call`, as `VisitExpr` says |
| Prototype.SliceOneDirection | flowslice_poc.py:338-350 | one direction: a fresh slicer's nodes, relabelled and sorted by line |
| Prototype.SliceVariable | flowslice_poc.py:323-352 | `slice_variable` returns what `PrototypeModel.SliceVariable` describes |

## Left out

- Parsing Python (`ast.parse`). A file's tree is part of the `FileSystem` value.
- Reading files, `Path.exists` and the working directory. These are the `text`, `existing` and `cwd` fields of `FileSystem`.
- A file that cannot be opened or decoded has no text in the model, and one that does not parse has no tree. The source raises in `slice` (lines 859-863 of src/flowslice/core/slicer.py) and returns early for a callee's file; the model returns `Err` and skips the callee.
- `get_ast` catches only `OSError` and `SyntaxError`. The model returns `None` for any file without a tree.
- The order of `list(s)` for a Python set is the `Listing` parameter. The proofs hold for every listing that lists each element once.
- Expression kinds the engine does not name are one catch-all expression, whose sub-expressions are still visited in order.
- A function definition keeps its name, its parameters `args.args` (positional-only parameters, `*args`, keyword-only parameters and `**kwargs` are not among them), the expressions of its parameter list (annotations and defaults), its body, and its decorators and return annotation, visited in that field order. Only `args.args` is reported and bound to arguments, as in the source. `async def` and every other statement kind the engine does not name are `Simple` statements whose fields are visited in order, as `generic_visit` does.
- Slicing.SliceOf: orders the forward section by the intended key of the Findings table, not the key as written. The two differ only when cross-file slicing reports the same node of another file more than once (`Slicing.ForwardOrderGroupsDuplicates`); without cross-file slicing they agree (`Slicing.ForwardSliceAsWritten`).
- Slicing.Slicer.Slice: returns what `Slicing.SliceOf` describes, so the same forward ordering applies.
- Cli.ExitStatus: takes the outcome of `Cli.Validate`, whose set of existing names is a parameter. Its requires ties that set to the file system for the accepted file only: an accepted file exists under the working directory.
- Cli.ExitStatus: `Path` also keeps a leading `/` as an anchor. `Cli.PathOf` drops it, so an absolute path is read relative to the working directory.
- `print`, `sys.exit` and `print_usage` text are not modelled. Errors are `Outcome` values with their `ExitCode`.
- Strings.Lower: changes only the ASCII letters, where Python's `str.lower` changes all of Unicode. Every direction and format name is ASCII, but a non-ASCII argument can lower to one: "bac\u212Award" (with U+212A KELVIN SIGN) lowers to "backward" in Python, so `main` accepts it, while `Cli.Validate` rejects it as a bad direction.
- Strings.ParseInt: accepts an optional sign and ASCII digits only. Python's `int` also accepts surrounding whitespace, underscores between digits and other Unicode digits.
- The text `json.dumps` writes, and its indentation, are not modelled. `JsonFormat.Format` builds the dictionary that is serialised, keys in insertion order.
- The text rendering of the tree formatter is left out, since it is presentation only: headers, colours, `├─` lines and file markers.
- The graph and dot formatters and `colors.py` are left out, since they are presentation only.
- The proof of concept's `as_tree` text and its `main` are left out.
- Visited-file lines come from `source.split('\n')`. A callee's lines in another file come from `readlines()`. Both are modelled (`Strings.SplitOn`, `Strings.ReadLines`): a visited-file line has no newline, a callee line keeps its own.
- Python's mutation of shared objects is modelled as values:
  - Tracking inside a callee returns its emitted nodes and tracked names, and the visitor appends them. The source appends to the visitor's list and updates the set in place.
  - The proof of concept's `node.file = ...` loop is a sequence update (`Prototype.EnhancedSlicer.SetFiles`).
  - Where aliasing is observable, in the tree formatter's merge, it is modelled explicitly: `TreeMerge.MergeNodesByLine` updates an array of nodes in place and returns references to them.
- When the root path is empty, `resolve_import` still tries the root-relative candidate. A `Path` is always true, so the source's `if self.root_path` never skips it.

## Findings

| source | as written | input that shows it | evidently intended | confidence | as-written member | corrected member |
|---|---|---|---|---|---|---|
| src/flowslice/core/slicer.py:937-945 | the forward sort key of a node from another file is `(1, forward_visitor.nodes.index(n))`, the position of the first node equal to it (modelled by `Slicing.ForwardOrderAsWritten`) | two distinct nodes A and B of another file, found in the order A, B, A, B (a callee reached from two call sites), come out as A, A, B, B | other-file nodes keep the order in which they were found, A, B, A, B (modelled by `Slicing.ForwardOrder`, which `Slicing.Slicer.Slice` uses) | not executed | Slicing.ForwardOrderGroupsDuplicates | Slicing.ForwardOrderIntended |
