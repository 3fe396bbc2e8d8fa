/** `EnhancedSlicer` and `slice_variable` of the proof of concept: the visitor class
    whose methods change its fields exactly as the functions of `PrototypeModel`
    say, and the driver that runs one slicer per direction, relabels its nodes
    with the target file and sorts them by line. */
module Prototype {
  import opened Wrappers
  import opened Strings
  import opened Sorting
  import opened PyAst
  import NameAnalysis
  import opened Models
  import opened ImportResolution
  import opened Tracking
  import opened Slicing
  import opened PrototypeModel

  // ---------------------------------------------------------------------------
  // the name collector

  /** `NameCollector().visit(x)`, adding each `Name` it meets to `names`. */
  method Collect(x: Expr, names: set<string>) returns (out: set<string>)
    ensures out == names + PlainNames(x)
    decreases x
  {
    match x
    case Name(id) =>
      out := names + {id};
    case Attribute(v, _) =>
      out := Collect(v, names);
    case Call(f, args, keywords, _) =>
      out := Collect(f, names);
      out := CollectAll(args, out);
      out := CollectAll(keywords, out);
    case Comp(_, elts, generators) =>
      out := CollectAll(elts, names);
      out := CollectGenerators(generators, out);
    case Other(children) =>
      out := CollectAll(children, names);
  }

  /** The generic visit of the generators of a comprehension: target, iterable
      and conditions of each, in order. */
  method CollectGenerators(generators: seq<Comprehension>, names: set<string>) returns (out: set<string>)
    ensures out == names + GeneratorNames(generators)
    decreases generators
  {
    out := names;
    for j := 0 to |generators|
      invariant out == names + GeneratorNames(generators[..j])
    {
      var g := generators[j];
      ghost var done := generators[..j];
      assert generators[..j + 1] == done + [g];
      GeneratorNamesSnoc(done, g);
      out := Collect(g.target, out);
      out := Collect(g.iter, out);
      out := CollectAll(g.ifs, out);
    }
    assert generators[..|generators|] == generators;
  }

  /** The generic visit of a list of sub-expressions. */
  method CollectAll(xs: seq<Expr>, names: set<string>) returns (out: set<string>)
    ensures out == names + PlainNamesAll(xs)
    decreases xs
  {
    out := names;
    for j := 0 to |xs|
      invariant out == names + PlainNamesAll(xs[..j])
    {
      out := Collect(xs[j], out);
      PlainNamesAllSnoc(xs[..j], xs[j]);
      assert xs[..j + 1] == xs[..j] + [xs[j]];
    }
    assert xs[..|xs|] == xs;
  }

  /** `_get_names_from_expr(x)`. */
  method GetNamesFromExpr(x: Expr) returns (names: set<string>)
    ensures names == PlainNames(x)
  {
    names := Collect(x, {});
  }

  /** The names of every argument of a call, one argument after another. */
  method ArgNames(args: seq<Expr>) returns (allArgs: set<string>)
    ensures allArgs == PlainNamesAll(args)
  {
    allArgs := {};
    for j := 0 to |args|
      invariant allArgs == PlainNamesAll(args[..j])
    {
      var argSet := GetNamesFromExpr(args[j]);
      allArgs := allArgs + argSet;
      PlainNamesAllSnoc(args[..j], args[j]);
      assert args[..j + 1] == args[..j] + [args[j]];
    }
    assert args[..|args|] == args;
  }

  // ---------------------------------------------------------------------------
  // the slicer

  class EnhancedSlicer {
    const targetVar: string
    const targetLine: int
    const direction: string
    const sourceLines: seq<string>
    /** The order in which `list()` enumerates a set of names. */
    const listing: Listing

    var nodes: seq<SliceNode>
    var currentFunction: string
    var functionStack: seq<string>
    var started: bool
    var relevantVars: set<string>
    var affectedVars: set<string>

    function Env(): PEnv {
      PEnv(targetVar, targetLine, direction, sourceLines, listing)
    }

    function State(): PState
      reads this
    {
      PState(nodes, currentFunction, functionStack, started, relevantVars, affectedVars)
    }

    constructor(targetVar: string, targetLine: int, direction: string, sourceLines: seq<string>, listing: Listing)
      ensures Env() == PEnv(targetVar, targetLine, direction, sourceLines, listing)
      ensures State() == InitialState(targetVar, direction)
    {
      this.targetVar := targetVar;
      this.targetLine := targetLine;
      this.direction := direction;
      this.sourceLines := sourceLines;
      this.listing := listing;
      nodes := [];
      currentFunction := "<module>";
      functionStack := ["<module>"];
      started := false;
      if direction == "backward" {
        relevantVars := {targetVar};
        affectedVars := {};
      } else {
        relevantVars := {};
        affectedVars := {targetVar};
      }
    }

    /** `slicer.visit(tree)` on a parsed module. */
    method Visit(m: Module)
      modifies this
      ensures State() == VisitStmts(Env(), old(State()), m.body)
    {
      VisitBlock(m.body);
    }

    /** `for node in slicer.nodes: node.file = file`. */
    method SetFiles(file: string)
      modifies this
      ensures nodes == Relabel(old(nodes), file)
      ensures State() == old(State()).(nodes := nodes)
    {
      ghost var orig := nodes;
      for i := 0 to |nodes|
        invariant |nodes| == |orig|
        invariant forall k :: 0 <= k < |nodes| ==> nodes[k] == if k < i then orig[k].(file := file) else orig[k]
        invariant State() == old(State()).(nodes := nodes)
      {
        nodes := nodes[i := nodes[i].(file := file)];
      }
      assert nodes == Relabel(orig, file);
    }

    // -------------------------------------------------------------------------
    // statements

    /** `visit(stmt)`: the statement's own visit method, or the generic visit. */
    method VisitStatement(s: Stmt)
      modifies this
      ensures State() == VisitStmt(Env(), old(State()), s)
      decreases s, 1
    {
      match s
      case FunctionDef(_, _, _, _, _, _) => VisitFunctionDef(s);
      case ClassDef(_, bases, body, decorators, _) =>
        VisitExpressions(bases);
        VisitBlock(body);
        VisitExpressions(decorators);
      case Assign(_, _, _) => VisitAssign(s);
      case ExprStmt(_, _) => VisitExprStatement(s);
      case For(_, _, _, _, _) => VisitFor(s);
      case While(test, body, orelse, _) =>
        VisitExpression(test);
        VisitBlock(body);
        VisitBlock(orelse);
      case If(test, body, orelse, _) =>
        VisitExpression(test);
        VisitBlock(body);
        VisitBlock(orelse);
      case With(items, body, _) =>
        VisitItems(items);
        VisitBlock(body);
      case Try(body, handlers, orelse, finalbody, _) =>
        VisitBlock(body);
        VisitHandlers(handlers);
        VisitBlock(orelse);
        VisitBlock(finalbody);
      case Return(result, _) =>
        if result.Some? {
          VisitExpression(result.value);
        }
      case Import(_, _) =>
      case ImportFrom(_, _, _) =>
      case Simple(parts, _) => VisitParts(parts);
    }

    /** The generic visit of a statement of another kind: its fields in order. */
    method VisitParts(ps: seq<Part>)
      modifies this
      ensures State() == PrototypeModel.VisitParts(Env(), old(State()), ps)
      decreases ps
    {
      for i := 0 to |ps|
        invariant State() == PrototypeModel.VisitParts(Env(), old(State()), ps[..i])
      {
        assert ps[..i + 1][..i] == ps[..i];
        match ps[i]
        case E(x) => VisitExpression(x);
        case B(block) => VisitBlock(block);
        case N(fields) => VisitParts(fields);
      }
      assert ps[..|ps|] == ps;
    }

    method VisitBlock(ss: seq<Stmt>)
      modifies this
      ensures State() == VisitStmts(Env(), old(State()), ss)
      decreases ss
    {
      for i := 0 to |ss|
        invariant State() == VisitStmts(Env(), old(State()), ss[..i])
      {
        assert ss[..i + 1][..i] == ss[..i];
        VisitStatement(ss[i]);
      }
      assert ss[..|ss|] == ss;
    }

    method VisitHandlers(hs: seq<Handler>)
      modifies this
      ensures State() == PrototypeModel.VisitHandlers(Env(), old(State()), hs)
      decreases hs
    {
      for i := 0 to |hs|
        invariant State() == PrototypeModel.VisitHandlers(Env(), old(State()), hs[..i])
      {
        assert hs[..i + 1][..i] == hs[..i];
        if hs[i].typ.Some? {
          VisitExpression(hs[i].typ.value);
        }
        VisitBlock(hs[i].body);
      }
      assert hs[..|hs|] == hs;
    }

    /** `visit_FunctionDef`: enter the function, report relevant parameters when
        slicing backward, visit the function, and return to the enclosing one. */
    method VisitFunctionDef(s: Stmt)
      requires s.FunctionDef?
      modifies this
      ensures State() == PrototypeModel.VisitFunctionDef(Env(), old(State()), s)
      decreases s, 0
    {
      functionStack := functionStack + [s.name];
      currentFunction := s.name;
      if direction == "backward" {
        ghost var s1 := State();
        for i := 0 to |s.params|
          invariant State() == ParamNodes(Env(), s1, s, i)
        {
          var p := s.params[i];
          if p in relevantVars {
            nodes := nodes + [SliceNode(Placeholder, s.line, currentFunction,
                                        "def " + s.name + "(..., " + p + ", ...)", p, "parameter", [], None)];
          }
        }
      }
      VisitExpressions(s.argExprs);
      VisitBlock(s.body);
      VisitExpressions(s.tail);
      functionStack := functionStack[..|functionStack| - 1];
      currentFunction := if functionStack != [] then functionStack[|functionStack| - 1] else "<module>";
    }

    /** `visit_Assign`. */
    method VisitAssign(s: Stmt)
      requires s.Assign?
      modifies this
      ensures State() == VisitStmt(Env(), old(State()), s)
      decreases s, 0
    {
      if direction == "backward" {
        AssignBackwardTargets(s);
      } else {
        if !started && s.line >= targetLine {
          started := true;
        }
        if started {
          var rhsVars := GetNamesFromExpr(s.value);
          if rhsVars * affectedVars != {} {
            AssignForwardTargets(s, rhsVars);
          }
        }
      }
      VisitExpressions(s.targets);
      VisitExpression(s.value);
    }

    /** The backward loop of `visit_Assign` over the targets. */
    method AssignBackwardTargets(s: Stmt)
      requires s.Assign?
      modifies this
      ensures State() == AssignBackward(Env(), old(State()), s, |s.targets|)
    {
      for i := 0 to |s.targets|
        invariant State() == AssignBackward(Env(), old(State()), s, i)
      {
        var target := s.targets[i];
        if target.Name? && target.id in relevantVars {
          var rhsVars := GetNamesFromExpr(s.value);
          var code := CodeAt(sourceLines, s.line);
          nodes := nodes + [SliceNode(Placeholder, s.line, currentFunction, code, target.id, "assignment",
                                      listing(rhsVars), None)];
          relevantVars := relevantVars + rhsVars;
        }
      }
    }

    /** The forward loop of `visit_Assign` over the targets; the dependencies are
        taken afresh for each target, after the targets before it became affected. */
    method AssignForwardTargets(s: Stmt, rhsVars: set<string>)
      requires s.Assign? && rhsVars == PlainNames(s.value)
      modifies this
      ensures State() == AssignForward(Env(), old(State()), s, |s.targets|)
    {
      for i := 0 to |s.targets|
        invariant State() == AssignForward(Env(), old(State()), s, i)
      {
        var target := s.targets[i];
        if target.Name? {
          var code := CodeAt(sourceLines, s.line);
          nodes := nodes + [SliceNode(Placeholder, s.line, currentFunction, code, target.id, "assignment",
                                      listing(rhsVars * affectedVars), None)];
          affectedVars := affectedVars + {target.id};
        }
      }
    }

    /** `visit_Expr`: a method call on a tracked object. */
    method VisitExprStatement(s: Stmt)
      requires s.ExprStmt?
      modifies this
      ensures State() == VisitStmt(Env(), old(State()), s)
      decreases s, 0
    {
      if s.value.Call? && s.value.func.Attribute? {
        var obj := NameAnalysis.BaseName(s.value.func.value);
        var methodName := s.value.func.attr;
        if direction == "backward" {
          if obj in relevantVars {
            var allArgs := ArgNames(s.value.args);
            var code := CodeAt(sourceLines, s.line);
            nodes := nodes + [SliceNode(Placeholder, s.line, currentFunction, code, obj, "." + methodName + "()",
                                        listing(allArgs), None)];
            relevantVars := relevantVars + allArgs;
          }
        } else {
          if started && obj in affectedVars {
            var code := CodeAt(sourceLines, s.line);
            nodes := nodes + [SliceNode(Placeholder, s.line, currentFunction, code, obj, "." + methodName + "()",
                                        [], None)];
          }
        }
      }
      VisitExpression(s.value);
    }

    /** `visit_For`. */
    method VisitFor(s: Stmt)
      requires s.For?
      modifies this
      ensures State() == VisitStmt(Env(), old(State()), s)
      decreases s, 0
    {
      if direction == "backward" {
        if s.target.Name? && s.target.id in relevantVars {
          var iterVars := GetNamesFromExpr(s.iter);
          var code := CodeAt(sourceLines, s.line);
          nodes := nodes + [SliceNode(Placeholder, s.line, currentFunction, code, s.target.id, "for loop",
                                      listing(iterVars), Some("iterates over " + SetRepr(listing, iterVars)))];
          relevantVars := relevantVars + iterVars;
        }
      } else {
        if started {
          var iterVars := GetNamesFromExpr(s.iter);
          if iterVars * affectedVars != {} {
            var code := CodeAt(sourceLines, s.line);
            if s.target.Name? {
              var inter := iterVars * affectedVars;
              nodes := nodes + [SliceNode(Placeholder, s.line, currentFunction, code, s.target.id, "for loop",
                                          listing(inter), Some("iterates over " + SetRepr(listing, inter)))];
              affectedVars := affectedVars + {s.target.id};
            }
          }
        }
      }
      VisitExpression(s.target);
      VisitExpression(s.iter);
      VisitBlock(s.body);
      VisitBlock(s.orelse);
    }

    // -------------------------------------------------------------------------
    // expressions

    /** `visit(expr)`: `visit_Call` for a call, the generic visit otherwise. */
    method VisitExpression(x: Expr)
      modifies this
      ensures State() == VisitExpr(Env(), old(State()), x)
      decreases x, 1
    {
      match x
      case Name(_) =>
      case Attribute(v, _) => VisitExpression(v);
      case Call(_, _, _, _) => VisitCall(x);
      case Comp(_, elts, generators) =>
        VisitExpressions(elts);
        VisitComprehensions(generators);
      case Other(children) => VisitExpressions(children);
    }

    method VisitExpressions(xs: seq<Expr>)
      modifies this
      ensures State() == VisitExprs(Env(), old(State()), xs)
      decreases xs
    {
      for i := 0 to |xs|
        invariant State() == VisitExprs(Env(), old(State()), xs[..i])
      {
        assert xs[..i + 1][..i] == xs[..i];
        VisitExpression(xs[i]);
      }
      assert xs[..|xs|] == xs;
    }

    method VisitComprehensions(gs: seq<Comprehension>)
      modifies this
      ensures State() == PrototypeModel.VisitComprehensions(Env(), old(State()), gs)
      decreases gs
    {
      for i := 0 to |gs|
        invariant State() == PrototypeModel.VisitComprehensions(Env(), old(State()), gs[..i])
      {
        assert gs[..i + 1][..i] == gs[..i];
        VisitExpression(gs[i].target);
        VisitExpression(gs[i].iter);
        VisitExpressions(gs[i].ifs);
      }
      assert gs[..|gs|] == gs;
    }

    method VisitItems(items: seq<WithItem>)
      modifies this
      ensures State() == PrototypeModel.VisitItems(Env(), old(State()), items)
    {
      for i := 0 to |items|
        invariant State() == PrototypeModel.VisitItems(Env(), old(State()), items[..i])
      {
        assert items[..i + 1][..i] == items[..i];
        VisitExpression(items[i].context);
        if items[i].vars.Some? {
          VisitExpression(items[i].vars.value);
        }
      }
      assert items[..|items|] == items;
    }

    /** `visit_Call`: each argument that mentions a checked name is reported. */
    method VisitCall(x: Expr)
      requires x.Call?
      modifies this
      ensures State() == VisitExpr(Env(), old(State()), x)
      decreases x, 0
    {
      if started || direction == "backward" {
        for i := 0 to |x.args|
          invariant State() == CallArgs(Env(), old(State()), x, i)
        {
          var argVars := GetNamesFromExpr(x.args[i]);
          var checkSet := if direction == "backward" then relevantVars
                          else if started then affectedVars else {};
          if argVars * checkSet != {} {
            var code := CodeAt(sourceLines, x.line);
            var funcName := NameAnalysis.FuncName(x.func);
            nodes := nodes + [SliceNode(Placeholder, x.line, currentFunction, code, Pick(listing, argVars * checkSet),
                                        "passed to " + funcName + "()", listing(argVars * checkSet), None)];
          }
        }
      }
      VisitExpression(x.func);
      VisitExpressions(x.args);
      VisitExpressions(x.keywords);
    }
  }

  // ---------------------------------------------------------------------------
  // slice_variable

  /** One direction of `slice_variable`: a fresh slicer visits the tree, its nodes
      are relabelled with the target file, then sorted by line. */
  method SliceOneDirection(variable: string, line: int, direction: string, sourceLines: seq<string>,
                           listing: Listing, tree: Module, targetFile: string)
    returns (slice: seq<SliceNode>)
    ensures slice == DirectionSlice(variable, line, direction, sourceLines, listing, tree, targetFile)
  {
    var slicer := new EnhancedSlicer(variable, line, direction, sourceLines, listing);
    slicer.Visit(tree);
    slicer.SetFiles(targetFile);
    slice := SortBy(slicer.nodes, LineLe);
  }

  /** `slice_variable(file_path, variable, line, direction)`. */
  method SliceVariable(fs: FileSystem, filePath: Path, variable: string, line: int, direction: string,
                       listing: Listing)
    returns (r: Result<SliceResult, SliceError>)
    ensures r == PrototypeModel.SliceVariable(fs, filePath, variable, line, direction, listing)
  {
    var fullPath := fs.cwd + filePath;
    if fullPath !in fs.text {
      return Err(CannotRead);
    }
    var source := fs.text[fullPath];
    var sourceLines := SplitOn(source, '\n');
    if fullPath !in fs.trees {
      return Err(CannotParse);
    }
    var tree := fs.trees[fullPath];
    var targetFile := FileName(filePath);
    var backward: seq<SliceNode> := [];
    var forward: seq<SliceNode> := [];
    if direction == "backward" || direction == "both" {
      backward := SliceOneDirection(variable, line, "backward", sourceLines, listing, tree, targetFile);
    }
    if direction == "forward" || direction == "both" {
      forward := SliceOneDirection(variable, line, "forward", sourceLines, listing, tree, targetFile);
    }
    return Ok(SliceResult(targetFile, line, variable, backward, forward));
  }
}
