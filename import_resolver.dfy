/** Import resolution over an abstract file system: finding the file a module
    name refers to, tracing a name re-exported by a package's `__init__.py` to
    the submodule that defines it, building the import map of a file, and
    finding imported function definitions, with a memoising cache of parsed trees. */
module ImportResolution {
  import opened Wrappers
  import opened Strings
  import opened PyAst

  // ---------------------------------------------------------------------------
  // paths and the file system

  /** One component of a path. */
  type Segment = s: string | s != "" && '/' !in s witness "x"

  /** An absolute path, as the list of its components. */
  type Path = seq<Segment>

  function Parent(p: Path): (r: Path)
    ensures p != [] ==> |r| == |p| - 1 && r == p[..|p| - 1]
  {
    if p == [] then [] else p[..|p| - 1]
  }

  /** `Path.name`: the last component, or "" for the root. */
  function FileName(p: Path): string {
    if p == [] then "" else p[|p| - 1]
  }

  /** What the engine can observe of the disk: the paths that exist (files and
      directories), the text of every file that can be opened and decoded, the
      tree of every file whose text parses, and the working directory. */
  datatype FileSystem = FileSystem(
    existing: set<Path>,
    text: map<Path, string>,
    trees: map<Path, Module>,
    cwd: Path)

  /** The parse of a file, or `None` when it cannot be read or does not parse. */
  function ParseOf(fs: FileSystem, p: Path): Option<Module> {
    if p in fs.trees then Some(fs.trees[p]) else None
  }

  /** The length of the longest existing path: a bound on how deep tracing can go. */
  ghost function MaxLen(s: set<Path>): (m: nat)
    ensures forall p :: p in s ==> |p| <= m
    decreases s
  {
    if s == {} then 0
    else
      var p :| p in s;
      var r := MaxLen(s - {p});
      if |p| > r then |p| else r
  }

  function ToSegments(parts: seq<string>): (r: Path)
    requires forall i :: 0 <= i < |parts| ==> parts[i] != "" && '/' !in parts[i]
    ensures r == parts
  {
    if parts == [] then [] else var s: Segment := parts[0]; [s] + ToSegments(parts[1..])
  }

  /** `f"{m}.py"` as one path component. */
  function PyFile(m: ModuleName): Segment {
    ModuleNameStrip(m);
    m + ".py"
  }

  function AsSegment(m: ModuleName): Segment {
    ModuleNameStrip(m);
    m
  }

  /** `m.replace('.', '/') + ".py"` as path components. */
  function RootRelative(m: ModuleName): (r: Path)
    ensures |r| == |SplitOn(m, '.')| && r[|r| - 1] == SplitOn(m, '.')[|r| - 1] + ".py"
  {
    var parts := SplitOn(m, '.');
    assert forall i :: 0 <= i < |parts| ==> parts[i] in parts;
    var last: Segment := parts[|parts| - 1] + ".py";
    ToSegments(parts[..|parts| - 1]) + [last]
  }

  /** The three places a module may live, in the order they are tried: a file
      beside the importing file, a package beside it, a file under the root. */
  function Candidates(root: Path, m: ModuleName, currentFile: Path): (c: seq<Path>)
    ensures |c| == 3
  {
    var dir := Parent(currentFile);
    [dir + [PyFile(m)], dir + [AsSegment(m), "__init__.py"], root + RootRelative(m)]
  }

  /** `resolve_import`: the first candidate that exists. */
  function ResolveImport(fs: FileSystem, root: Path, m: ModuleName, currentFile: Path): (r: Option<Path>)
    ensures var c := Candidates(root, m, currentFile);
      && (r.None? <==> forall k :: 0 <= k < 3 ==> c[k] !in fs.existing)
      && (r.Some? ==> exists k :: 0 <= k < 3 && r.value == c[k] && c[k] in fs.existing
                                  && forall j :: 0 <= j < k ==> c[j] !in fs.existing)
  {
    var dir := Parent(currentFile);
    var sameDir := dir + [PyFile(m)];
    var packageDir := dir + [AsSegment(m), "__init__.py"];
    var rootRelative := root + RootRelative(m);
    var c := Candidates(root, m, currentFile);
    assert c[0] == sameDir && c[1] == packageDir && c[2] == rootRelative;
    if sameDir in fs.existing then Some(sameDir)
    else if packageDir in fs.existing then Some(packageDir)
    else if rootRelative in fs.existing then Some(rootRelative)
    else None
  }

  // ---------------------------------------------------------------------------
  // re-export tracing

  /** Where a re-exporting `from .sub import name` in a package leads: a module
      file `pkg/sub.py`, or a nested package `pkg/sub/__init__.py`. */
  datatype Hit = ModuleFile(file: Path) | Package(init: Path)

  predicate HitWellFormed(fs: FileSystem, pkg: Path, h: Hit) {
    match h
    case ModuleFile(p) => p in fs.existing && |p| == |pkg| + 1
    case Package(p) => p in fs.existing && |p| == |pkg| + 2 && FileName(p) == "__init__.py"
  }

  /** `module.lstrip('.')`: the submodule a relative `from` statement names. */
  function Submodule(m: ModuleName): (r: Segment)
    ensures r == LStripDots(m)
  {
    ModuleNameStrip(m);
    LStripDots(m)
  }

  /** One alias of one `from` statement, looked at for `name`. */
  function AliasHit(fs: FileSystem, pkg: Path, source: Option<ModuleName>, alias: Alias, name: string): (r: Option<Hit>)
    ensures r.Some? ==> alias.name == name && source.Some? && HitWellFormed(fs, pkg, r.value)
  {
    if alias.name == name && source.Some? then
      var sub := Submodule(source.value);
      var submodulePath := pkg + [sub + ".py"];
      if submodulePath in fs.existing then Some(ModuleFile(submodulePath))
      else
        var submoduleInit := pkg + [sub, "__init__.py"];
        if submoduleInit in fs.existing then Some(Package(submoduleInit)) else None
    else None
  }

  /** The first element of `xs` for which `f` gives something, and what it gives. */
  function FirstSome<T, U>(xs: seq<T>, f: T -> Option<U>): (r: Option<U>)
    ensures r.Some? ==> exists k :: 0 <= k < |xs| && f(xs[k]) == r
                                    && forall j :: 0 <= j < k ==> f(xs[j]).None?
    ensures r.None? <==> forall k :: 0 <= k < |xs| ==> f(xs[k]).None?
  {
    if xs == [] then None
    else if f(xs[0]).Some? then f(xs[0])
    else
      var r := FirstSome(xs[1..], f);
      assert forall i :: 1 <= i < |xs| ==> xs[i] == xs[1..][i - 1];
      r
  }

  /** Whatever the first element that gives something gives is what `FirstSome` returns. */
  lemma FirstSomeAt<T, U>(xs: seq<T>, f: T -> Option<U>, k: nat)
    requires k < |xs| && f(xs[k]).Some?
    requires forall j :: 0 <= j < k ==> f(xs[j]).None?
    ensures FirstSome(xs, f) == f(xs[k])
  {
    var r := FirstSome(xs, f);
    var k' :| 0 <= k' < |xs| && f(xs[k']) == r && forall j :: 0 <= j < k' ==> f(xs[j]).None?;
    assert k' == k;
  }

  /** The first alias of a `from` statement that leads somewhere. */
  function FirstAliasHit(fs: FileSystem, pkg: Path, source: Option<ModuleName>, aliases: seq<Alias>, name: string): (r: Option<Hit>)
    ensures r.Some? ==> HitWellFormed(fs, pkg, r.value)
    ensures r.Some? ==> exists i :: 0 <= i < |aliases| && AliasHit(fs, pkg, source, aliases[i], name) == r
                                    && forall j :: 0 <= j < i ==> AliasHit(fs, pkg, source, aliases[j], name).None?
    ensures r.None? <==> forall i :: 0 <= i < |aliases| ==> AliasHit(fs, pkg, source, aliases[i], name).None?
  {
    FirstSome(aliases, (a: Alias) => AliasHit(fs, pkg, source, a, name))
  }

  function StmtHit(fs: FileSystem, pkg: Path, s: Stmt, name: string): (r: Option<Hit>)
    ensures r.Some? ==> s.ImportFrom? && HitWellFormed(fs, pkg, r.value)
  {
    if s.ImportFrom? then FirstAliasHit(fs, pkg, s.source, s.names, name) else None
  }

  /** The first statement, in walk order, that re-exports `name` from a submodule that exists. */
  function FirstHit(fs: FileSystem, pkg: Path, stmts: seq<Stmt>, name: string): (r: Option<Hit>)
    ensures r.Some? ==> HitWellFormed(fs, pkg, r.value)
    ensures r.Some? ==> exists k :: 0 <= k < |stmts| && StmtHit(fs, pkg, stmts[k], name) == r
                                    && forall j :: 0 <= j < k ==> StmtHit(fs, pkg, stmts[j], name).None?
    ensures r.None? <==> forall k :: 0 <= k < |stmts| ==> StmtHit(fs, pkg, stmts[k], name).None?
  {
    FirstSome(stmts, (s: Stmt) => StmtHit(fs, pkg, s, name))
  }

  /** `_trace_reexport`: follows re-exports through package `__init__.py` files
      to the file that provides `name`. The name itself never changes; a path
      that is not an `__init__.py` is returned as it is; each step goes one
      directory deeper, so tracing ends on any finite file system. */
  function Traced(fs: FileSystem, path: Path, name: string): (r: (Path, string))
    ensures r.1 == name
    ensures FileName(path) != "__init__.py" ==> r.0 == path
    ensures r.0 == path || r.0 in fs.existing
    decreases MaxLen(fs.existing) + 1 - |path|
  {
    if FileName(path) != "__init__.py" then (path, name)
    else if path !in fs.trees then (path, name)
    else
      match FirstHit(fs, Parent(path), Walk(fs.trees[path]), name)
      case Some(ModuleFile(p)) => (p, name)
      case Some(Package(p)) => Traced(fs, p, name)
      case None => (path, name)
  }

  // ---------------------------------------------------------------------------
  // the import map

  /** What an imported local name refers to: a file and the name inside it. */
  datatype ImportTarget = ImportTarget(path: Path, name: string)

  type ImportMap = map<string, ImportTarget>

  function LocalName(a: Alias): string {
    if a.asname.Some? then a.asname.value else a.name
  }

  function ModuleLocalName(a: ModuleAlias): string {
    if a.asname.Some? then a.asname.value else a.name
  }

  /** The bindings made by `from m import a1, a2, ...` once `m` resolved to `modulePath`. */
  function FromBindings(fs: FileSystem, modulePath: Path, aliases: seq<Alias>): (r: seq<(string, ImportTarget)>)
    ensures |r| == |aliases|
    ensures forall i :: 0 <= i < |aliases| ==>
      r[i].0 == LocalName(aliases[i]) && r[i].1.name == aliases[i].name
      && r[i].1.path == Traced(fs, modulePath, aliases[i].name).0
    decreases |aliases|
  {
    if aliases == [] then []
    else
      var a := aliases[|aliases| - 1];
      var traced := Traced(fs, modulePath, a.name);
      FromBindings(fs, modulePath, aliases[..|aliases| - 1]) + [(LocalName(a), ImportTarget(traced.0, traced.1))]
  }

  /** The aliases of `import m1, m2, ...` whose module resolves, in order. */
  function Resolving(fs: FileSystem, root: Path, modules: seq<ModuleAlias>, file: Path): (q: seq<ModuleAlias>)
    ensures forall a :: a in q <==> a in modules && ResolveImport(fs, root, a.name, file).Some?
    decreases |modules|
  {
    if modules == [] then []
    else
      var a := modules[|modules| - 1];
      var init := modules[..|modules| - 1];
      assert modules == init + [a];
      Resolving(fs, root, init, file) + if ResolveImport(fs, root, a.name, file).Some? then [a] else []
  }

  /** The bindings made by `import m1, m2, ...`: one per module that resolves, in
      order, binding its local name to the resolved file and the module's name;
      modules that do not resolve bind nothing. */
  function ImportBindings(fs: FileSystem, root: Path, modules: seq<ModuleAlias>, file: Path): (r: seq<(string, ImportTarget)>)
    ensures forall b :: b in r ==> exists a :: (a in modules && b.0 == ModuleLocalName(a)
              && ResolveImport(fs, root, a.name, file) == Some(b.1.path) && b.1.name == a.name)
    ensures var q := Resolving(fs, root, modules, file);
      && |r| == |q|
      && forall i :: 0 <= i < |q| ==>
           r[i] == (ModuleLocalName(q[i]), ImportTarget(ResolveImport(fs, root, q[i].name, file).value, q[i].name))
    decreases |modules|
  {
    if modules == [] then []
    else
      var a := modules[|modules| - 1];
      var rest := ImportBindings(fs, root, modules[..|modules| - 1], file);
      match ResolveImport(fs, root, a.name, file)
      case None => rest
      case Some(p) => rest + [(ModuleLocalName(a), ImportTarget(p, a.name))]
  }

  /** The bindings one statement makes, in order. */
  function StmtBindings(fs: FileSystem, root: Path, s: Stmt, file: Path): seq<(string, ImportTarget)> {
    match s
    case ImportFrom(source, names, _) =>
      if source.None? then []
      else
        (match ResolveImport(fs, root, source.value, file)
         case None => []
         case Some(p) => FromBindings(fs, p, names))
    case Import(modules, _) => ImportBindings(fs, root, modules, file)
    case _ => []
  }

  function Bindings(fs: FileSystem, root: Path, stmts: seq<Stmt>, file: Path): seq<(string, ImportTarget)>
    decreases |stmts|
  {
    if stmts == [] then []
    else Bindings(fs, root, stmts[..|stmts| - 1], file) + StmtBindings(fs, root, stmts[|stmts| - 1], file)
  }

  /** A dictionary filled from a list of bindings, later ones overwriting earlier ones. */
  function MapOf(ps: seq<(string, ImportTarget)>): ImportMap
    decreases |ps|
  {
    if ps == [] then map[] else MapOf(ps[..|ps| - 1])[ps[|ps| - 1].0 := ps[|ps| - 1].1]
  }

  /** The import map of a file whose statements, in walk order, are `stmts`. */
  function ImportMapOf(fs: FileSystem, root: Path, stmts: seq<Stmt>, file: Path): ImportMap {
    MapOf(Bindings(fs, root, stmts, file))
  }

  /** A name is bound exactly when some binding names it, and it is bound to what
      the last such binding says. */
  lemma {:induction false} MapOfLast(ps: seq<(string, ImportTarget)>, k: string)
    ensures k in MapOf(ps) <==> exists j :: 0 <= j < |ps| && ps[j].0 == k
    ensures k in MapOf(ps) ==> exists j :: 0 <= j < |ps| && ps[j].0 == k && MapOf(ps)[k] == ps[j].1
                                           && forall j' :: j < j' < |ps| ==> ps[j'].0 != k
    decreases |ps|
  {
    if ps != [] {
      var init := ps[..|ps| - 1];
      MapOfLast(init, k);
      assert forall j :: 0 <= j < |init| ==> init[j] == ps[j];
      if ps[|ps| - 1].0 != k && k in MapOf(ps) {
        var j :| 0 <= j < |init| && init[j].0 == k && MapOf(init)[k] == init[j].1
                 && forall j' :: j < j' < |init| ==> init[j'].0 != k;
        assert MapOf(ps)[k] == ps[j].1;
      }
    }
  }

  // ---------------------------------------------------------------------------
  // function definitions

  predicate IsDefOf(s: Stmt, name: string) {
    s.FunctionDef? && s.name == name
  }

  /** The first definition of `name` in a list of statements. */
  function FirstDef(stmts: seq<Stmt>, name: string): (r: Option<FuncDef>)
    ensures r.Some? ==> r.value.name == name && exists k :: (0 <= k < |stmts| && stmts[k] == r.value
                        && forall j :: 0 <= j < k ==> !IsDefOf(stmts[j], name))
    ensures r.None? <==> forall k :: 0 <= k < |stmts| ==> !IsDefOf(stmts[k], name)
  {
    if stmts == [] then None
    else if IsDefOf(stmts[0], name) then Some(stmts[0])
    else
      var r := FirstDef(stmts[1..], name);
      assert forall i :: 1 <= i < |stmts| ==> stmts[i] == stmts[1..][i - 1];
      r
  }

  /** `find_function_def`: the first definition of `name` in walk order. */
  function FindFunctionDef(tree: Module, name: string): (r: Option<FuncDef>)
    ensures r.Some? ==> r.value.name == name && r.value in Walk(tree)
    ensures r.None? <==> forall s :: s in Walk(tree) ==> !IsDefOf(s, name)
  {
    FirstDef(Walk(tree), name)
  }

  /** `resolve_function_source`: the file an imported function lives in, with its definition. */
  function FunctionSource(fs: FileSystem, name: string, imports: ImportMap): (r: Option<(Path, FuncDef)>)
    ensures r.Some? ==> name in imports && r.value.0 == imports[name].path
                        && imports[name].path in fs.trees
                        && r.value.1.name == imports[name].name
                        && r.value.1 in Walk(fs.trees[imports[name].path])
    ensures r.None? <==> name !in imports || imports[name].path !in fs.trees
                         || forall s :: s in Walk(fs.trees[imports[name].path]) ==> !IsDefOf(s, imports[name].name)
  {
    if name !in imports then None
    else
      var target := imports[name];
      match ParseOf(fs, target.path)
      case None => None
      case Some(tree) =>
        match FindFunctionDef(tree, target.name)
        case None => None
        case Some(d) => Some((target.path, d))
  }

  // ---------------------------------------------------------------------------
  // the resolver, with its cache of parsed trees

  class ImportResolver {
    const root: Path
    const fs: FileSystem
    var astCache: map<Path, Module>

    /** Every cached tree is the parse of its file. */
    ghost predicate Valid()
      reads this
    {
      forall p :: p in astCache ==> p in fs.trees && astCache[p] == fs.trees[p]
    }

    constructor(root: Path, fs: FileSystem)
      ensures Valid()
      ensures this.root == root && this.fs == fs && astCache == map[]
    {
      this.root := root;
      this.fs := fs;
      astCache := map[];
    }

    /** `get_ast`: a cached tree is returned with the cache unchanged; a file that
        parses is added to the cache; a failure returns `None` and adds nothing. */
    method GetAst(p: Path) returns (t: Option<Module>)
      requires Valid()
      modifies this
      ensures Valid()
      ensures t == ParseOf(fs, p)
      ensures old(p in astCache) ==> t == Some(old(astCache[p])) && astCache == old(astCache)
      ensures !old(p in astCache) && t.Some? ==> astCache == old(astCache)[p := t.value]
      ensures t.None? ==> astCache == old(astCache)
    {
      if p in astCache {
        return Some(astCache[p]);
      }
      if p in fs.trees {
        var tree := fs.trees[p];
        astCache := astCache[p := tree];
        return Some(tree);
      }
      return None;
    }

    /** `_trace_reexport`, reading package trees through the cache. */
    method TraceReexport(path: Path, name: string) returns (r: (Path, string))
      requires Valid()
      modifies this
      ensures Valid()
      ensures r == Traced(fs, path, name)
      decreases MaxLen(fs.existing) + 1 - |path|
    {
      if FileName(path) != "__init__.py" {
        return (path, name);
      }
      var tree := GetAst(path);
      if tree.None? {
        return (path, name);
      }
      var stmts := Walk(tree.value);
      var h := ScanStatements(fs, Parent(path), stmts, name);
      TracedStep(fs, path, name, stmts);
      match h {
        case None =>
          r := (path, name);
        case Some(ModuleFile(submodulePath)) =>
          r := (submodulePath, name);
        case Some(Package(submoduleInit)) =>
          r := TraceReexport(submoduleInit, name);
      }
    }

    /** `parse_imports`: the import map of a file, filled in walk order. */
    method ParseImports(tree: Module, file: Path) returns (imports: ImportMap)
      requires Valid()
      modifies this
      ensures Valid()
      ensures imports == ImportMapOf(fs, root, Walk(tree), file)
    {
      imports := map[];
      var stmts := Walk(tree);
      for k := 0 to |stmts|
        invariant Valid()
        invariant imports == MapOf(Bindings(fs, root, stmts[..k], file))
      {
        BindingsSnoc(fs, root, stmts, k, file);
        imports := BindStatement(imports, Bindings(fs, root, stmts[..k], file), stmts[k], file);
      }
      assert stmts[..|stmts|] == stmts;
    }

    /** One statement of `parse_imports`: an import or a `from` import binds its
        names, anything else binds nothing. */
    method BindStatement(imports: ImportMap, ghost base: seq<(string, ImportTarget)>, s: Stmt, file: Path)
      returns (r: ImportMap)
      requires Valid() && imports == MapOf(base)
      modifies this
      ensures Valid()
      ensures r == MapOf(base + StmtBindings(fs, root, s, file))
    {
      r := imports;
      if s.ImportFrom? {
        if s.source.Some? {
          var modulePath := ResolveImport(fs, root, s.source.value, file);
          if modulePath.Some? {
            assert StmtBindings(fs, root, s, file) == FromBindings(fs, modulePath.value, s.names);
            r := BindFrom(imports, base, modulePath.value, s.names);
            return;
          }
        }
        assert StmtBindings(fs, root, s, file) == [];
      } else if s.Import? {
        assert StmtBindings(fs, root, s, file) == ImportBindings(fs, root, s.modules, file);
        r := BindImport(imports, base, fs, root, s.modules, file);
        return;
      } else {
        assert StmtBindings(fs, root, s, file) == [];
      }
      assert base + [] == base;
    }

    /** The inner loop of `parse_imports` for `from m import ...` once `m` resolved. */
    method BindFrom(imports: ImportMap, ghost base: seq<(string, ImportTarget)>, modulePath: Path, aliases: seq<Alias>)
      returns (r: ImportMap)
      requires Valid() && imports == MapOf(base)
      modifies this
      ensures Valid()
      ensures r == MapOf(base + FromBindings(fs, modulePath, aliases))
    {
      r := imports;
      assert base + [] == base;
      for i := 0 to |aliases|
        invariant Valid()
        invariant r == MapOf(base + FromBindings(fs, modulePath, aliases[..i]))
      {
        var traced := TraceReexport(modulePath, aliases[i].name);
        FromBindingsSnoc(fs, modulePath, aliases, i);
        MapOfSnoc(base + FromBindings(fs, modulePath, aliases[..i]),
                  (LocalName(aliases[i]), ImportTarget(traced.0, traced.1)));
        assert base + FromBindings(fs, modulePath, aliases[..i + 1])
            == (base + FromBindings(fs, modulePath, aliases[..i])) + [(LocalName(aliases[i]), ImportTarget(traced.0, traced.1))];
        r := r[LocalName(aliases[i]) := ImportTarget(traced.0, traced.1)];
      }
      assert aliases[..|aliases|] == aliases;
    }

    /** `resolve_function_source`, reading the imported file's tree through the cache. */
    method ResolveFunctionSource(name: string, imports: ImportMap) returns (r: Option<(Path, FuncDef)>)
      requires Valid()
      modifies this
      ensures Valid()
      ensures r == FunctionSource(fs, name, imports)
    {
      if name !in imports {
        return None;
      }
      var target := imports[name];
      var tree := GetAst(target.path);
      if tree.None? {
        return None;
      }
      var d := FindFunctionDef(tree.value, target.name);
      if d.None? {
        return None;
      }
      return Some((target.path, d.value));
    }
  }

  /** The outer loop of `_trace_reexport`: the statements of a package's
      `__init__.py` in walk order, stopping at the first `from` statement with
      an alias that leads somewhere. */
  method ScanStatements(fs: FileSystem, pkg: Path, stmts: seq<Stmt>, name: string) returns (h: Option<Hit>)
    ensures h == FirstHit(fs, pkg, stmts, name)
  {
    for k := 0 to |stmts|
      invariant forall j :: 0 <= j < k ==> StmtHit(fs, pkg, stmts[j], name).None?
    {
      if stmts[k].ImportFrom? {
        h := ScanAliases(fs, pkg, stmts[k].source, stmts[k].names, name);
        if h.Some? {
          FirstSomeAt(stmts, (s: Stmt) => StmtHit(fs, pkg, s, name), k);
          return;
        }
      }
    }
    return None;
  }

  /** The inner loop of `_trace_reexport`: the aliases of one `from` statement in
      order, stopping at the first that names `name` and whose submodule exists,
      as a file first and as a package second. */
  method ScanAliases(fs: FileSystem, pkg: Path, source: Option<ModuleName>, aliases: seq<Alias>, name: string)
    returns (h: Option<Hit>)
    ensures h == FirstAliasHit(fs, pkg, source, aliases, name)
  {
    for i := 0 to |aliases|
      invariant forall j :: 0 <= j < i ==> AliasHit(fs, pkg, source, aliases[j], name).None?
    {
      if aliases[i].name == name && source.Some? {
        var submoduleName := Submodule(source.value);
        var submodulePath := pkg + [submoduleName + ".py"];
        if submodulePath in fs.existing {
          FirstSomeAt(aliases, (a: Alias) => AliasHit(fs, pkg, source, a, name), i);
          return Some(ModuleFile(submodulePath));
        }
        var submoduleInit := pkg + [submoduleName, "__init__.py"];
        if submoduleInit in fs.existing {
          FirstSomeAt(aliases, (a: Alias) => AliasHit(fs, pkg, source, a, name), i);
          return Some(Package(submoduleInit));
        }
      }
    }
    return None;
  }

  /** One step of tracing from a package's `__init__.py` whose statements are `stmts`. */
  lemma TracedStep(fs: FileSystem, path: Path, name: string, stmts: seq<Stmt>)
    requires FileName(path) == "__init__.py" && path in fs.trees && stmts == Walk(fs.trees[path])
    ensures FirstHit(fs, Parent(path), stmts, name).None? ==> Traced(fs, path, name) == (path, name)
    ensures forall p :: FirstHit(fs, Parent(path), stmts, name) == Some(ModuleFile(p)) ==> Traced(fs, path, name) == (p, name)
    ensures forall p :: FirstHit(fs, Parent(path), stmts, name) == Some(Package(p)) ==> Traced(fs, path, name) == Traced(fs, p, name)
  {
  }

  /** Filling a dictionary with one more binding writes that binding last. */
  lemma MapOfSnoc(ps: seq<(string, ImportTarget)>, b: (string, ImportTarget))
    ensures MapOf(ps + [b]) == MapOf(ps)[b.0 := b.1]
  {
    assert (ps + [b])[..|ps|] == ps;
  }

  lemma BindingsSnoc(fs: FileSystem, root: Path, stmts: seq<Stmt>, k: nat, file: Path)
    requires k < |stmts|
    ensures Bindings(fs, root, stmts[..k + 1], file)
            == Bindings(fs, root, stmts[..k], file) + StmtBindings(fs, root, stmts[k], file)
  {
    assert stmts[..k + 1][..k] == stmts[..k];
  }

  lemma FromBindingsSnoc(fs: FileSystem, modulePath: Path, aliases: seq<Alias>, i: nat)
    requires i < |aliases|
    ensures FromBindings(fs, modulePath, aliases[..i + 1])
            == FromBindings(fs, modulePath, aliases[..i])
               + [(LocalName(aliases[i]), ImportTarget(Traced(fs, modulePath, aliases[i].name).0, aliases[i].name))]
  {
    assert aliases[..i + 1][..i] == aliases[..i];
  }

  lemma ImportBindingsSnoc(fs: FileSystem, root: Path, modules: seq<ModuleAlias>, i: nat, file: Path)
    requires i < |modules|
    ensures ResolveImport(fs, root, modules[i].name, file).None? ==>
      ImportBindings(fs, root, modules[..i + 1], file) == ImportBindings(fs, root, modules[..i], file)
    ensures ResolveImport(fs, root, modules[i].name, file).Some? ==>
      ImportBindings(fs, root, modules[..i + 1], file) == ImportBindings(fs, root, modules[..i], file)
        + [(ModuleLocalName(modules[i]), ImportTarget(ResolveImport(fs, root, modules[i].name, file).value, modules[i].name))]
  {
    assert modules[..i + 1][..i] == modules[..i];
  }

  /** The inner loop of `parse_imports` for `import m1, m2, ...`. */
  method BindImport(imports: ImportMap, ghost base: seq<(string, ImportTarget)>, fs: FileSystem, root: Path,
                    modules: seq<ModuleAlias>, file: Path)
    returns (r: ImportMap)
    requires imports == MapOf(base)
    ensures r == MapOf(base + ImportBindings(fs, root, modules, file))
  {
    r := imports;
    assert base + [] == base;
    for i := 0 to |modules|
      invariant r == MapOf(base + ImportBindings(fs, root, modules[..i], file))
    {
      ImportBindingsSnoc(fs, root, modules, i, file);
      var modulePath := ResolveImport(fs, root, modules[i].name, file);
      if modulePath.Some? {
        var b := (ModuleLocalName(modules[i]), ImportTarget(modulePath.value, modules[i].name));
        MapOfSnoc(base + ImportBindings(fs, root, modules[..i], file), b);
        assert base + ImportBindings(fs, root, modules[..i + 1], file)
            == (base + ImportBindings(fs, root, modules[..i], file)) + [b];
        r := r[b.0 := b.1];
      }
    }
    assert modules[..|modules|] == modules;
  }
}
