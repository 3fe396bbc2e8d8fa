/** The abstract syntax tree the engine reads, as a closed set of node kinds:
    the statement and expression kinds the slicer looks at by name, plus one
    catch-all kind each for the rest. Parsing itself is not modelled; a parsed
    file is a `Module` value. */
module PyAst {
  import opened Wrappers
  import opened Strings

  /** An identifier: never empty and never containing a dot. */
  type Ident = s: string | s != "" && '.' !in s witness "x"

  /** `s.lstrip('.')` */
  function LStripDots(s: string): (r: string)
    ensures |r| <= |s| && r == s[|s| - |r|..]
    ensures r != [] ==> r[0] != '.'
  {
    if s != [] && s[0] == '.' then LStripDots(s[1..]) else s
  }

  /** A dotted module name as the parser records it after `from` or `import`:
      non-empty dot-separated parts, no path separator. */
  predicate IsDottedName(s: string) {
    '/' !in s && forall p | p in SplitOn(s, '.') :: p != ""
  }

  type ModuleName = s: string | IsDottedName(s) witness "m"

  /** A module name does not start with a dot, so stripping leading dots keeps it whole. */
  lemma ModuleNameStrip(s: ModuleName)
    ensures s != "" && LStripDots(s) == s
  {
    var parts := SplitOn(s, '.');
    assert parts[0] in parts;
  }

  /** Source line numbers start at 1. */
  type Line = n: int | n >= 1 witness 1

  datatype CompKind = ListComp | SetComp | DictComp | GeneratorExp

  datatype Expr =
    | Name(id: Ident)
    | Attribute(value: Expr, attr: Ident)
      /** `func(*args, **keywords)`; `keywords` holds the keyword argument values */
    | Call(func: Expr, args: seq<Expr>, keywords: seq<Expr>, line: Line)
      /** a comprehension: `elts` is `[elt]`, or `[key, value]` for a dict comprehension */
    | Comp(kind: CompKind, elts: seq<Expr>, generators: seq<Comprehension>)
      /** every other expression kind (constants, operators, subscripts, tuples, lambdas, ...),
          with its sub-expressions in field order */
    | Other(children: seq<Expr>)

  datatype Comprehension = Comprehension(target: Expr, iter: Expr, ifs: seq<Expr>)

  /** `from m import name as asname` */
  datatype Alias = Alias(name: Ident, asname: Option<Ident>)

  /** `import name as asname` */
  datatype ModuleAlias = ModuleAlias(name: ModuleName, asname: Option<Ident>)

  datatype WithItem = WithItem(context: Expr, vars: Option<Expr>)

  /** `except typ: body` */
  datatype Handler = Handler(typ: Option<Expr>, body: seq<Stmt>)

  /** A field of a statement of a kind not named below, in the order the syntax
      tree lists its fields: an expression, a block of statements, or a nested
      node that is not a statement (the handler of an `except*`, a `case` of a
      `match`) with fields of its own. */
  datatype Part =
    | E(expr: Expr)
    | B(block: seq<Stmt>)
    | N(fields: seq<Part>)

  datatype Stmt =
      /** `def name(params): body`; `params` are the names of `args.args`, the
          parameters after any positional-only ones and before `*args`;
          `argExprs` are the annotations and default values inside the
          parameter list and `tail` the decorators and the return annotation,
          each in field order */
    | FunctionDef(name: Ident, params: seq<Ident>, argExprs: seq<Expr>, body: seq<Stmt>, tail: seq<Expr>, line: Line)
      /** `class name(bases): body`; `bases` holds the base classes and then the
          keyword values, `decorators` the decorators */
    | ClassDef(name: Ident, bases: seq<Expr>, body: seq<Stmt>, decorators: seq<Expr>, line: Line)
    | Assign(targets: seq<Expr>, value: Expr, line: Line)
    | ExprStmt(value: Expr, line: Line)
    | For(target: Expr, iter: Expr, body: seq<Stmt>, orelse: seq<Stmt>, line: Line)
    | While(test: Expr, body: seq<Stmt>, orelse: seq<Stmt>, line: Line)
    | If(test: Expr, body: seq<Stmt>, orelse: seq<Stmt>, line: Line)
    | With(items: seq<WithItem>, body: seq<Stmt>, line: Line)
    | Try(body: seq<Stmt>, handlers: seq<Handler>, orelse: seq<Stmt>, finalbody: seq<Stmt>, line: Line)
    | Return(result: Option<Expr>, line: Line)
    | Import(modules: seq<ModuleAlias>, line: Line)
    | ImportFrom(source: Option<ModuleName>, names: seq<Alias>, line: Line)
      /** every other statement kind (augmented assignment, `raise`, `async def`,
          `async for`, `async with`, `match`, `try` with `except*`, ...) with its fields */
    | Simple(parts: seq<Part>, line: Line)

  datatype Module = Module(body: seq<Stmt>)

  /** A function definition, as stored in the engine's function tables. */
  type FuncDef = s: Stmt | s.FunctionDef? witness FunctionDef("f", [], [], [], [], 1)

  // ---------------------------------------------------------------------------
  // ast.walk: breadth-first over the tree. Only statements (and the exception
  // handlers and other nested nodes that hold statements) matter for the order
  // in which statements are met, so those are the nodes walked; expression nodes
  // never hold statements.

  datatype WalkNode = S(stmt: Stmt) | H(handler: Handler) | P(fields: seq<Part>)

  function Wrap(ss: seq<Stmt>): (r: seq<WalkNode>)
    ensures |r| == |ss| && forall i :: 0 <= i < |ss| ==> r[i] == S(ss[i])
  {
    if ss == [] then [] else [S(ss[0])] + Wrap(ss[1..])
  }

  function WrapHandlers(hs: seq<Handler>): (r: seq<WalkNode>)
    ensures |r| == |hs| && forall i :: 0 <= i < |hs| ==> r[i] == H(hs[i])
  {
    if hs == [] then [] else [H(hs[0])] + WrapHandlers(hs[1..])
  }

  /** The statement-holding children among some fields, in field order. */
  function PartsChildren(ps: seq<Part>): seq<WalkNode> {
    if ps == [] then []
    else
      match ps[0]
      case E(_) => PartsChildren(ps[1..])
      case B(block) => Wrap(block) + PartsChildren(ps[1..])
      case N(fields) => [P(fields)] + PartsChildren(ps[1..])
  }

  /** The statement-holding children of a node, in the field order of the syntax tree. */
  function Children(n: WalkNode): seq<WalkNode> {
    match n
    case H(h) => Wrap(h.body)
    case P(fields) => PartsChildren(fields)
    case S(s) =>
      match s
      case FunctionDef(_, _, _, body, _, _) => Wrap(body)
      case ClassDef(_, _, body, _, _) => Wrap(body)
      case For(_, _, body, orelse, _) => Wrap(body) + Wrap(orelse)
      case While(_, body, orelse, _) => Wrap(body) + Wrap(orelse)
      case If(_, body, orelse, _) => Wrap(body) + Wrap(orelse)
      case With(_, body, _) => Wrap(body)
      case Try(body, handlers, orelse, finalbody, _) =>
        Wrap(body) + WrapHandlers(handlers) + Wrap(orelse) + Wrap(finalbody)
      case Simple(parts, _) => PartsChildren(parts)
      case _ => []
  }

  function Size(s: Stmt): nat {
    match s
    case FunctionDef(_, _, _, body, _, _) => 1 + SizeAll(body)
    case ClassDef(_, _, body, _, _) => 1 + SizeAll(body)
    case Simple(parts, _) => 1 + PartsSize(parts)
    case For(_, _, body, orelse, _) => 1 + SizeAll(body) + SizeAll(orelse)
    case While(_, body, orelse, _) => 1 + SizeAll(body) + SizeAll(orelse)
    case If(_, body, orelse, _) => 1 + SizeAll(body) + SizeAll(orelse)
    case With(_, body, _) => 1 + SizeAll(body)
    case Try(body, handlers, orelse, finalbody, _) =>
      1 + SizeAll(body) + HandlersSize(handlers) + SizeAll(orelse) + SizeAll(finalbody)
    case _ => 1
  }

  function SizeAll(ss: seq<Stmt>): nat {
    if ss == [] then 0 else Size(ss[0]) + SizeAll(ss[1..])
  }

  function HandlersSize(hs: seq<Handler>): nat {
    if hs == [] then 0 else 1 + SizeAll(hs[0].body) + HandlersSize(hs[1..])
  }

  function PartsSize(ps: seq<Part>): nat {
    if ps == [] then 0
    else
      match ps[0]
      case E(_) => PartsSize(ps[1..])
      case B(block) => SizeAll(block) + PartsSize(ps[1..])
      case N(fields) => 1 + PartsSize(fields) + PartsSize(ps[1..])
  }

  function NodeSize(n: WalkNode): nat {
    match n
    case S(s) => Size(s)
    case H(h) => 1 + SizeAll(h.body)
    case P(fields) => 1 + PartsSize(fields)
  }

  function NodesSize(ns: seq<WalkNode>): nat {
    if ns == [] then 0 else NodeSize(ns[0]) + NodesSize(ns[1..])
  }

  /** All children of a level, in order: the next level of the breadth-first walk. */
  function NextLevel(ns: seq<WalkNode>): seq<WalkNode> {
    if ns == [] then [] else Children(ns[0]) + NextLevel(ns[1..])
  }

  lemma {:induction false} NodesSizeAppend(a: seq<WalkNode>, b: seq<WalkNode>)
    ensures NodesSize(a + b) == NodesSize(a) + NodesSize(b)
    decreases |a|
  {
    if a != [] {
      assert (a + b)[0] == a[0] && (a + b)[1..] == a[1..] + b;
      NodesSizeAppend(a[1..], b);
    } else {
      assert a + b == b;
    }
  }

  lemma {:induction false} WrapSize(ss: seq<Stmt>)
    ensures NodesSize(Wrap(ss)) == SizeAll(ss)
    decreases |ss|
  {
    if ss != [] {
      assert Wrap(ss)[1..] == Wrap(ss[1..]);
      WrapSize(ss[1..]);
    }
  }

  lemma {:induction false} WrapHandlersSize(hs: seq<Handler>)
    ensures NodesSize(WrapHandlers(hs)) == HandlersSize(hs)
    decreases |hs|
  {
    if hs != [] {
      assert WrapHandlers(hs)[1..] == WrapHandlers(hs[1..]);
      WrapHandlersSize(hs[1..]);
    }
  }

  lemma WrapPairSize(a: seq<Stmt>, b: seq<Stmt>)
    ensures NodesSize(Wrap(a) + Wrap(b)) == SizeAll(a) + SizeAll(b)
  {
    WrapSize(a); WrapSize(b); NodesSizeAppend(Wrap(a), Wrap(b));
  }

  lemma TrySize(body: seq<Stmt>, handlers: seq<Handler>, orelse: seq<Stmt>, finalbody: seq<Stmt>)
    ensures NodesSize(Wrap(body) + WrapHandlers(handlers) + Wrap(orelse) + Wrap(finalbody))
         == SizeAll(body) + HandlersSize(handlers) + SizeAll(orelse) + SizeAll(finalbody)
  {
    WrapSize(body); WrapHandlersSize(handlers); WrapSize(orelse); WrapSize(finalbody);
    NodesSizeAppend(Wrap(body), WrapHandlers(handlers));
    NodesSizeAppend(Wrap(body) + WrapHandlers(handlers), Wrap(orelse));
    NodesSizeAppend(Wrap(body) + WrapHandlers(handlers) + Wrap(orelse), Wrap(finalbody));
  }

  lemma {:induction false} PartsChildrenSize(ps: seq<Part>)
    ensures NodesSize(PartsChildren(ps)) == PartsSize(ps)
    decreases |ps|
  {
    if ps != [] {
      PartsChildrenSize(ps[1..]);
      match ps[0]
      case E(_) =>
      case B(block) =>
        WrapSize(block);
        NodesSizeAppend(Wrap(block), PartsChildren(ps[1..]));
      case N(fields) =>
        NodesSizeAppend([P(fields)], PartsChildren(ps[1..]));
        assert NodesSize([P(fields)]) == NodeSize(P(fields));
    }
  }

  lemma StmtChildrenSize(s: Stmt)
    ensures NodesSize(Children(S(s))) + 1 == Size(s)
  {
    match s
    case FunctionDef(_, _, _, body, _, _) =>
      assert Children(S(s)) == Wrap(body);
      WrapSize(body);
    case ClassDef(_, _, body, _, _) =>
      assert Children(S(s)) == Wrap(body);
      WrapSize(body);
    case For(_, _, body, orelse, _) =>
      assert Children(S(s)) == Wrap(body) + Wrap(orelse);
      WrapPairSize(body, orelse);
    case While(_, body, orelse, _) =>
      assert Children(S(s)) == Wrap(body) + Wrap(orelse);
      WrapPairSize(body, orelse);
    case If(_, body, orelse, _) =>
      assert Children(S(s)) == Wrap(body) + Wrap(orelse);
      WrapPairSize(body, orelse);
    case With(_, body, _) =>
      assert Children(S(s)) == Wrap(body);
      WrapSize(body);
    case Try(body, handlers, orelse, finalbody, _) =>
      assert Children(S(s)) == Wrap(body) + WrapHandlers(handlers) + Wrap(orelse) + Wrap(finalbody);
      TrySize(body, handlers, orelse, finalbody);
    case Simple(parts, _) =>
      assert Children(S(s)) == PartsChildren(parts);
      PartsChildrenSize(parts);
    case _ =>
      assert Children(S(s)) == [];
  }

  /** A node is one more than its children. */
  lemma ChildrenSize(n: WalkNode)
    ensures NodesSize(Children(n)) + 1 == NodeSize(n)
  {
    match n
    case H(h) => WrapSize(h.body);
    case P(fields) => PartsChildrenSize(fields);
    case S(s) => StmtChildrenSize(s);
  }

  /** The next level of the walk is smaller by one per node of the current level. */
  lemma {:induction false} NextLevelSize(ns: seq<WalkNode>)
    ensures NodesSize(NextLevel(ns)) + |ns| == NodesSize(ns)
    decreases |ns|
  {
    if ns != [] {
      NextLevelSize(ns[1..]);
      ChildrenSize(ns[0]);
      NodesSizeAppend(Children(ns[0]), NextLevel(ns[1..]));
    }
  }

  /** Breadth-first order: the current level, then the walk of the next level. */
  function WalkFrom(ns: seq<WalkNode>): seq<WalkNode>
    decreases NodesSize(ns)
  {
    if ns == [] then []
    else
      NextLevelSize(ns);
      ns + WalkFrom(NextLevel(ns))
  }

  /** The statements among walked nodes, in walk order. */
  function StmtsOf(ns: seq<WalkNode>): (r: seq<Stmt>)
    ensures forall s :: s in r <==> S(s) in ns
  {
    if ns == [] then []
    else if ns[0].S? then [ns[0].stmt] + StmtsOf(ns[1..])
    else StmtsOf(ns[1..])
  }

  /** `ast.walk(tree)`, restricted to statements. */
  function Walk(m: Module): seq<Stmt> {
    StmtsOf(WalkFrom(Wrap(m.body)))
  }

  /** `ast.walk(stmt)`, restricted to statements: `stmt` itself comes first. */
  function WalkStmt(s: Stmt): (r: seq<Stmt>)
    ensures |r| >= 1 && r[0] == s
  {
    assert WalkFrom([S(s)]) == [S(s)] + WalkFrom(NextLevel([S(s)]));
    StmtsOf(WalkFrom([S(s)]))
  }

  // ---------------------------------------------------------------------------
  // where a forward slice can start

  /** Some assignment at or below `line` occurs in the statement, at any depth:
      in its blocks, a handler's body or a field of a statement of another kind. */
  predicate Reaches(s: Stmt, line: int)
    decreases s
  {
    match s
    case Assign(_, _, l) => l >= line
    case FunctionDef(_, _, _, body, _, _) => ReachesAll(body, line)
    case ClassDef(_, _, body, _, _) => ReachesAll(body, line)
    case For(_, _, body, orelse, _) => ReachesAll(body, line) || ReachesAll(orelse, line)
    case While(_, body, orelse, _) => ReachesAll(body, line) || ReachesAll(orelse, line)
    case If(_, body, orelse, _) => ReachesAll(body, line) || ReachesAll(orelse, line)
    case With(_, body, _) => ReachesAll(body, line)
    case Try(body, handlers, orelse, finalbody, _) =>
      ReachesAll(body, line) || ReachesHandlers(handlers, line) || ReachesAll(orelse, line) || ReachesAll(finalbody, line)
    case Simple(parts, _) => ReachesParts(parts, line)
    case _ => false
  }

  predicate ReachesParts(ps: seq<Part>, line: int)
    decreases ps
  {
    ps != [] && (ReachesParts(ps[..|ps| - 1], line) || ReachesPart(ps[|ps| - 1], line))
  }

  predicate ReachesPart(p: Part, line: int)
    decreases p
  {
    match p
    case E(_) => false
    case B(block) => ReachesAll(block, line)
    case N(fields) => ReachesParts(fields, line)
  }

  predicate ReachesAll(ss: seq<Stmt>, line: int)
    decreases ss
  {
    ss != [] && (ReachesAll(ss[..|ss| - 1], line) || Reaches(ss[|ss| - 1], line))
  }

  predicate ReachesHandlers(hs: seq<Handler>, line: int)
    decreases hs
  {
    hs != [] && (ReachesHandlers(hs[..|hs| - 1], line) || ReachesAll(hs[|hs| - 1].body, line))
  }
}
