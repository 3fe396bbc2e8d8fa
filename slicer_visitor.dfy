/** `SlicerVisitor`: the AST visitor that collects slice nodes for one criterion.
    Each method changes the visitor's fields exactly as the corresponding function
    of `VisitorModel` says, so every property proved there holds of the visitor. */
module SlicerVisitors {
  import opened Wrappers
  import opened Strings
  import opened PyAst
  import opened NameAnalysis
  import opened Models
  import opened ImportResolution
  import opened Tracking
  import opened VisitorModel

  /** The file system seen when no resolver is given; nothing reads it. */
  const NoFiles := FileSystem({}, map[], map[], [])

  /** `param_mapping` of `_analyze_local_function_call` and `_analyze_cross_file_call`. */
  method BindParameters(params: seq<Ident>, args: seq<Expr>, relevantArgs: set<string>)
    returns (mapping: map<string, set<string>>)
    ensures mapping == ParamMapping(params, args, relevantArgs)
  {
    mapping := map[];
    for i := 0 to |args|
      invariant mapping == ParamMapping(params, args[..i], relevantArgs)
    {
      assert args[..i + 1][..i] == args[..i];
      if i < |params| {
        var paramName := params[i];
        var argVars := GetNamesFromExpr(args[i]);
        if argVars * relevantArgs != {} {
          mapping := mapping[paramName := argVars];
        }
      }
    }
    assert args[..|args|] == args;
  }

  class SlicerVisitor {
    const targetVar: string
    const targetLine: int
    const direction: SliceDirection
    const sourceLines: seq<string>
    const currentFile: string
    const imports: ImportMap
    const resolver: ImportResolver?
    const functionDefs: map<string, FuncDef>
    /** The order in which `list()` enumerates a set of names. */
    const listing: Listing

    var nodes: seq<SliceNode>
    var currentFunction: string
    var functionStack: seq<string>
    var started: bool
    var targetFunction: Option<string>
    var relevantVars: set<string>
    var affectedVars: set<string>

    function Env(): Env {
      VisitorModel.Env(targetVar, targetLine, direction, sourceLines, currentFile, imports,
                       resolver != null, if resolver != null then resolver.fs else NoFiles,
                       functionDefs, listing)
    }

    function State(): VState
      reads this
    {
      VState(nodes, currentFunction, functionStack, started, targetFunction, relevantVars, affectedVars)
    }

    ghost predicate Valid()
      reads this, resolver
    {
      resolver != null ==> resolver.Valid()
    }

    constructor(targetVar: string, targetLine: int, direction: SliceDirection, sourceLines: seq<string>,
                currentFile: string, imports: ImportMap, resolver: ImportResolver?,
                functionDefs: map<string, FuncDef>, listing: Listing)
      requires resolver != null ==> resolver.Valid()
      ensures Valid()
      ensures this.targetVar == targetVar && this.targetLine == targetLine && this.direction == direction
      ensures this.sourceLines == sourceLines && this.currentFile == currentFile && this.imports == imports
      ensures this.resolver == resolver && this.functionDefs == functionDefs && this.listing == listing
      ensures State() == InitialState(targetVar, direction)
    {
      this.targetVar := targetVar;
      this.targetLine := targetLine;
      this.direction := direction;
      this.sourceLines := sourceLines;
      this.currentFile := currentFile;
      this.imports := imports;
      this.resolver := resolver;
      this.functionDefs := functionDefs;
      this.listing := listing;
      nodes := [];
      currentFunction := "<module>";
      functionStack := ["<module>"];
      started := false;
      targetFunction := None;
      if direction == Backward {
        relevantVars := {targetVar};
        affectedVars := {};
      } else {
        relevantVars := {};
        affectedVars := {targetVar};
      }
    }

    // -------------------------------------------------------------------------
    // statements

    /** `visitor.visit(tree)` on a parsed module. */
    method VisitModule(m: Module)
      requires Valid()
      modifies this, resolver
      ensures Valid()
      ensures State() == VisitorModel.VisitModule(Env(), old(State()), m)
    {
      VisitBlock(m.body);
    }

    /** `visit(stmt)`: the statement's own visit method, or the generic visit. */
    method VisitStatement(s: Stmt)
      requires Valid()
      modifies this, resolver
      ensures Valid()
      ensures State() == VisitorModel.VisitStmt(Env(), old(State()), s)
      decreases s, 1
    {
      match s
      case FunctionDef(_, _, _, _, _, _) => VisitFunctionDef(s);
      case ClassDef(_, bases, body, decorators, _) =>
        VisitExpressions(bases);
        VisitBlock(body);
        VisitExpressions(decorators);
      case Assign(_, _, _) => VisitAssign(s);
      case ExprStmt(_, _) => VisitExprStatement(s);
      case For(_, _, _, _, _) => VisitFor(s);
      case While(_, _, _, _) => VisitConditional(s);
      case If(_, _, _, _) => VisitConditional(s);
      case With(items, body, _) =>
        VisitItems(items);
        VisitBlock(body);
      case Try(_, _, _, _, _) => VisitTry(s);
      case Return(result, _) =>
        if result.Some? {
          VisitExpression(result.value);
        }
      case Import(_, _) =>
      case ImportFrom(_, _, _) =>
      case Simple(parts, _) => VisitParts(parts);
    }

    /** The generic visit of a statement of another kind: its fields in order. */
    method VisitParts(ps: seq<Part>)
      requires Valid()
      modifies this, resolver
      ensures Valid()
      ensures State() == VisitorModel.VisitParts(Env(), old(State()), ps)
      decreases ps
    {
      for i := 0 to |ps|
        invariant Valid()
        invariant State() == VisitorModel.VisitParts(Env(), old(State()), ps[..i])
      {
        assert ps[..i + 1][..i] == ps[..i];
        match ps[i]
        case E(x) => VisitExpression(x);
        case B(block) => VisitBlock(block);
        case N(fields) => VisitParts(fields);
      }
      assert ps[..|ps|] == ps;
    }

    /** The generic visit of `while` and `if`: the test, the body, the `else` part. */
    method VisitConditional(s: Stmt)
      requires (s.While? || s.If?) && Valid()
      modifies this, resolver
      ensures Valid()
      ensures State() == VisitorModel.VisitStmt(Env(), old(State()), s)
      decreases s, 0
    {
      VisitExpression(s.test);
      VisitBlock(s.body);
      VisitBlock(s.orelse);
    }

    /** The generic visit of `try`: the body, the handlers, the `else` and `finally` parts. */
    method VisitTry(s: Stmt)
      requires s.Try? && Valid()
      modifies this, resolver
      ensures Valid()
      ensures State() == VisitorModel.VisitStmt(Env(), old(State()), s)
      decreases s, 0
    {
      VisitBlock(s.body);
      VisitHandlers(s.handlers);
      VisitBlock(s.orelse);
      VisitBlock(s.finalbody);
    }

    method VisitBlock(ss: seq<Stmt>)
      requires Valid()
      modifies this, resolver
      ensures Valid()
      ensures State() == VisitorModel.VisitStmts(Env(), old(State()), ss)
      decreases ss
    {
      for i := 0 to |ss|
        invariant Valid()
        invariant State() == VisitorModel.VisitStmts(Env(), old(State()), ss[..i])
      {
        assert ss[..i + 1][..i] == ss[..i];
        VisitStatement(ss[i]);
      }
      assert ss[..|ss|] == ss;
    }

    method VisitHandlers(hs: seq<Handler>)
      requires Valid()
      modifies this, resolver
      ensures Valid()
      ensures State() == VisitorModel.VisitHandlers(Env(), old(State()), hs)
      decreases hs
    {
      for i := 0 to |hs|
        invariant Valid()
        invariant State() == VisitorModel.VisitHandlers(Env(), old(State()), hs[..i])
      {
        assert hs[..i + 1][..i] == hs[..i];
        if hs[i].typ.Some? {
          VisitExpression(hs[i].typ.value);
        }
        VisitBlock(hs[i].body);
      }
      assert hs[..|hs|] == hs;
    }

    /** `visit_FunctionDef`: enter the function, report relevant parameters when
        slicing backward, visit the definition's fields, and return to the
        enclosing function. */
    method VisitFunctionDef(s: Stmt)
      requires s.FunctionDef? && Valid()
      modifies this, resolver
      ensures Valid()
      ensures State() == VisitorModel.VisitFunctionDef(Env(), old(State()), s)
      decreases s, 0
    {
      EnterFunction(s);
      VisitExpressions(s.argExprs);
      VisitBlock(s.body);
      VisitExpressions(s.tail);
      LeaveFunction();
    }

    /** `visit_FunctionDef` before its fields: push the function, and report
        its relevant parameters when slicing backward. */
    method EnterFunction(s: Stmt)
      requires s.FunctionDef?
      modifies this`nodes, this`functionStack, this`currentFunction
      ensures var s1 := old(State()).(functionStack := old(functionStack) + [s.name], currentFunction := s.name);
        State() == if direction == Backward then ParamNodes(Env(), s1, s, |s.params|) else s1
    {
      functionStack := functionStack + [s.name];
      currentFunction := s.name;
      if direction == Backward {
        ReportParameters(s);
      }
    }

    /** `visit_FunctionDef` after its fields: pop the function and return to
        the enclosing one, or to `<module>`. */
    method LeaveFunction()
      requires functionStack != []
      modifies this`functionStack, this`currentFunction
      ensures var stack := old(functionStack)[..|old(functionStack)| - 1];
        State() == old(State()).(functionStack := stack,
                                 currentFunction := if stack != [] then stack[|stack| - 1] else "<module>")
    {
      functionStack := functionStack[..|functionStack| - 1];
      currentFunction := if functionStack != [] then functionStack[|functionStack| - 1] else "<module>";
    }

    /** The backward part of `visit_FunctionDef`: a `parameter` node for each
        relevant parameter. */
    method ReportParameters(s: Stmt)
      requires s.FunctionDef?
      modifies this`nodes
      ensures State() == ParamNodes(Env(), old(State()), s, |s.params|)
    {
      for i := 0 to |s.params|
        invariant State() == ParamNodes(Env(), old(State()), s, i)
      {
        var p := s.params[i];
        if p in relevantVars {
          nodes := nodes + [SliceNode(currentFile, s.line, currentFunction,
                                      "def " + s.name + "(..., " + p + ", ...)", p, "parameter", [], None)];
        }
      }
    }

    /** `visit_Assign`. */
    method VisitAssign(s: Stmt)
      requires s.Assign? && Valid()
      modifies this, resolver
      ensures Valid()
      ensures State() == VisitorModel.VisitStmt(Env(), old(State()), s)
      decreases s, 0
    {
      AssignHeader(s);
      ghost var s1 := State();
      assert s1 == AssignOwn(Env(), old(State()), s);
      VisitExpressions(s.targets);
      VisitExpression(s.value);
    }

    /** The part of `visit_Assign` before the generic visit. */
    method AssignHeader(s: Stmt)
      requires s.Assign? && Valid()
      modifies this, resolver
      ensures Valid()
      ensures State() == AssignOwn(Env(), old(State()), s)
    {
      if direction == Backward {
        if s.line <= targetLine {
          AssignBackwardTargets(s);
        }
      } else {
        if !started && s.line >= targetLine {
          started := true;
          targetFunction := Some(currentFunction);
        }
        if started && Some(currentFunction) == targetFunction {
          var rhsVars := GetNamesFromExpr(s.value);
          if rhsVars * affectedVars != {} {
            AssignForwardTargets(s);
          }
        }
      }
    }

    /** The backward loop of `visit_Assign` over the targets. */
    method AssignBackwardTargets(s: Stmt)
      requires s.Assign? && Valid()
      modifies this, resolver
      ensures Valid()
      ensures State() == AssignBackward(Env(), old(State()), s, |s.targets|)
    {
      for i := 0 to |s.targets|
        invariant Valid()
        invariant State() == AssignBackward(Env(), old(State()), s, i)
      {
        AssignBackwardTarget(s, s.targets[i]);
      }
    }

    /** One pass of that loop. */
    method AssignBackwardTarget(s: Stmt, target: Expr)
      requires s.Assign? && Valid()
      modifies this, resolver
      ensures Valid()
      ensures State() == BackwardTarget(Env(), old(State()), s, target)
    {
      if target.Name? && target.id in relevantVars {
        var rhsVars := GetNamesFromExpr(s.value);
        var code := CodeAt(sourceLines, s.line);
        var filteredDeps := MostSpecific(rhsVars);
        nodes := nodes + [SliceNode(currentFile, s.line, currentFunction, code, target.id, "assignment",
                                    listing(filteredDeps), None)];
        if s.value.Call? && s.value.func.Name? {
          var argVars := ArgNames(s.value.args);
          if argVars != {} {
            AnalyzeCrossFileCall(s.value, argVars, s.line);
          }
        }
        relevantVars := relevantVars + rhsVars;
      }
    }

    /** The forward loop of `visit_Assign` over the targets. */
    method AssignForwardTargets(s: Stmt)
      requires s.Assign?
      modifies this
      ensures State() == AssignForward(Env(), old(State()), s, |s.targets|)
    {
      for i := 0 to |s.targets|
        invariant State() == AssignForward(Env(), old(State()), s, i)
      {
        var target := s.targets[i];
        if target.Name? {
          var rhsVars := GetNamesFromExpr(s.value);
          var code := CodeAt(sourceLines, s.line);
          nodes := nodes + [SliceNode(currentFile, s.line, currentFunction, code, target.id, "assignment",
                                      listing(rhsVars * affectedVars), None)];
          affectedVars := affectedVars + {target.id};
        }
      }
    }

    /** `visit_Expr`: a method call on a tracked object. */
    method VisitExprStatement(s: Stmt)
      requires s.ExprStmt? && Valid()
      modifies this, resolver
      ensures Valid()
      ensures State() == VisitorModel.VisitStmt(Env(), old(State()), s)
      decreases s, 0
    {
      ExprStmtHeader(s);
      ghost var s1 := State();
      assert s1 == ExprStmtOwn(Env(), old(State()), s);
      VisitExpression(s.value);
    }

    /** The part of `visit_Expr` before the generic visit. */
    method ExprStmtHeader(s: Stmt)
      requires s.ExprStmt?
      modifies this`nodes, this`relevantVars
      ensures State() == ExprStmtOwn(Env(), old(State()), s)
    {
      if s.value.Call? && s.value.func.Attribute? {
        var obj := BaseName(s.value.func.value);
        var methodName := s.value.func.attr;
        if direction == Backward {
          if s.line <= targetLine && obj in relevantVars {
            var allArgs := ArgNames(s.value.args);
            var code := CodeAt(sourceLines, s.line);
            nodes := nodes + [SliceNode(currentFile, s.line, currentFunction, code, obj, "." + methodName + "()",
                                        listing(allArgs), None)];
            relevantVars := relevantVars + allArgs;
          }
        } else {
          if started && Some(currentFunction) == targetFunction && obj in affectedVars {
            var code := CodeAt(sourceLines, s.line);
            nodes := nodes + [SliceNode(currentFile, s.line, currentFunction, code, obj, "." + methodName + "()",
                                        [], None)];
          }
        }
      }
    }

    /** `visit_For`. */
    method VisitFor(s: Stmt)
      requires s.For? && Valid()
      modifies this, resolver
      ensures Valid()
      ensures State() == VisitorModel.VisitStmt(Env(), old(State()), s)
      decreases s, 0
    {
      ForHeader(s);
      ghost var s1 := State();
      assert s1 == ForOwn(Env(), old(State()), s);
      VisitExpression(s.target);
      VisitExpression(s.iter);
      ghost var s2 := State();
      assert s2 == VisitExpr(Env(), VisitExpr(Env(), s1, s.target), s.iter);
      VisitBlock(s.body);
      VisitBlock(s.orelse);
    }

    /** The part of `visit_For` before the generic visit: the loop target as a
        `for loop` node. */
    method ForHeader(s: Stmt)
      requires s.For?
      modifies this`nodes, this`relevantVars, this`affectedVars
      ensures State() == ForOwn(Env(), old(State()), s)
    {
      if direction == Backward {
        if s.line <= targetLine && s.target.Name? && s.target.id in relevantVars {
          var iterVars := GetNamesFromExpr(s.iter);
          var code := CodeAt(sourceLines, s.line);
          nodes := nodes + [SliceNode(currentFile, s.line, currentFunction, code, s.target.id, "for loop",
                                      listing(iterVars), Some("iterates over " + SetRepr(listing, iterVars)))];
          relevantVars := relevantVars + iterVars;
        }
      } else {
        if started && Some(currentFunction) == targetFunction {
          var iterVars := GetNamesFromExpr(s.iter);
          if iterVars * affectedVars != {} {
            var code := CodeAt(sourceLines, s.line);
            if s.target.Name? {
              var inter := iterVars * affectedVars;
              nodes := nodes + [SliceNode(currentFile, s.line, currentFunction, code, s.target.id, "for loop",
                                          listing(inter), Some("iterates over " + SetRepr(listing, inter)))];
              affectedVars := affectedVars + {s.target.id};
            }
          }
        }
      }
    }

    // -------------------------------------------------------------------------
    // expressions

    /** `visit(expr)`: `visit_Call` for a call, the generic visit otherwise. */
    method VisitExpression(x: Expr)
      requires Valid()
      modifies this, resolver
      ensures Valid()
      ensures State() == VisitorModel.VisitExpr(Env(), old(State()), x)
      decreases x, 1
    {
      match x
      case Name(_) =>
      case Attribute(v, _) => VisitExpression(v);
      case Call(_, _, _, _) => VisitCall(x);
      case Comp(_, elts, generators) =>
        VisitExpressions(elts);
        VisitComprehensions(generators);
      case Other(children) => VisitExpressions(children);
    }

    method VisitExpressions(xs: seq<Expr>)
      requires Valid()
      modifies this, resolver
      ensures Valid()
      ensures State() == VisitorModel.VisitExprs(Env(), old(State()), xs)
      decreases xs
    {
      for i := 0 to |xs|
        invariant Valid()
        invariant State() == VisitorModel.VisitExprs(Env(), old(State()), xs[..i])
      {
        assert xs[..i + 1][..i] == xs[..i];
        VisitExpression(xs[i]);
      }
      assert xs[..|xs|] == xs;
    }

    method VisitComprehensions(gs: seq<Comprehension>)
      requires Valid()
      modifies this, resolver
      ensures Valid()
      ensures State() == VisitorModel.VisitComprehensions(Env(), old(State()), gs)
      decreases gs
    {
      for i := 0 to |gs|
        invariant Valid()
        invariant State() == VisitorModel.VisitComprehensions(Env(), old(State()), gs[..i])
      {
        assert gs[..i + 1][..i] == gs[..i];
        VisitExpression(gs[i].target);
        VisitExpression(gs[i].iter);
        VisitExpressions(gs[i].ifs);
      }
      assert gs[..|gs|] == gs;
    }

    method VisitItems(items: seq<WithItem>)
      requires Valid()
      modifies this, resolver
      ensures Valid()
      ensures State() == VisitorModel.VisitItems(Env(), old(State()), items)
    {
      for i := 0 to |items|
        invariant Valid()
        invariant State() == VisitorModel.VisitItems(Env(), old(State()), items[..i])
      {
        assert items[..i + 1][..i] == items[..i];
        VisitExpression(items[i].context);
        if items[i].vars.Some? {
          VisitExpression(items[i].vars.value);
        }
      }
      assert items[..|items|] == items;
    }

    /** `visit_Call`: a started forward visitor reports each argument that mentions
        an affected name, and follows the call when it can resolve the callee. */
    method VisitCall(x: Expr)
      requires x.Call? && Valid()
      modifies this, resolver
      ensures Valid()
      ensures State() == VisitorModel.VisitExpr(Env(), old(State()), x)
      decreases x, 0
    {
      if direction == Forward && started {
        for i := 0 to |x.args|
          invariant Valid()
          invariant State() == CallArgs(Env(), old(State()), x, i)
        {
          var argVars := GetNamesFromExpr(x.args[i]);
          var checkSet := affectedVars;
          if !(started && Some(currentFunction) == targetFunction) {
            continue;
          }
          if argVars * checkSet != {} {
            var code := CodeAt(sourceLines, x.line);
            var funcName := FuncName(x.func);
            nodes := nodes + [SliceNode(currentFile, x.line, currentFunction, code, Pick(listing, argVars * checkSet),
                                        "passed to " + funcName + "()", listing(argVars * checkSet), None)];
            if resolver != null && x.func.Name? {
              AnalyzeCrossFileCall(x, argVars * checkSet, x.line);
            }
          }
        }
      }
      VisitExpression(x.func);
      VisitExpressions(x.args);
      VisitExpressions(x.keywords);
    }

    // -------------------------------------------------------------------------
    // following calls

    /** `_analyze_local_function_call`. The call-site line is carried for ordering
        only and never read. */
    method AnalyzeLocalFunctionCall(call: Expr, relevantArgs: set<string>, callSiteLine: Line)
      requires call.Call?
      modifies this
      ensures State() == old(State()).(nodes := old(nodes) + LocalCall(Env(), call, relevantArgs))
    {
      if !call.func.Name? {
        return;
      }
      var funcName := call.func.id;
      if funcName !in functionDefs {
        return;
      }
      var funcDef := functionDefs[funcName];
      var paramMapping := BindParameters(funcDef.params, call.args, relevantArgs);
      if paramMapping == map[] {
        return;
      }
      var emitted;
      if direction == Backward {
        emitted := SliceFunctionBackward(funcDef, PathName(currentFile), sourceLines, paramMapping, listing);
      } else {
        emitted := SliceFunctionForward(funcDef, PathName(currentFile), sourceLines, paramMapping, listing);
      }
      nodes := nodes + emitted;
    }

    /** `_analyze_cross_file_call`: a name that is not imported is a local call; an
        imported one is resolved to its definition, whose file is read for its lines. */
    method AnalyzeCrossFileCall(call: Expr, relevantArgs: set<string>, callSiteLine: Line)
      requires call.Call? && Valid()
      modifies this, resolver
      ensures Valid()
      ensures State() == old(State()).(nodes := old(nodes) + CrossFileCall(Env(), call, relevantArgs))
    {
      if !call.func.Name? {
        return;
      }
      var funcName := call.func.id;
      if funcName !in imports {
        AnalyzeLocalFunctionCall(call, relevantArgs, callSiteLine);
        return;
      }
      if resolver == null {
        return;
      }
      var result := resolver.ResolveFunctionSource(funcName, imports);
      if result.None? {
        return;
      }
      var (filePath, funcDef) := result.value;
      if filePath !in resolver.fs.text {
        return;
      }
      var importedSourceLines := ReadLines(resolver.fs.text[filePath]);
      var paramMapping := BindParameters(funcDef.params, call.args, relevantArgs);
      if paramMapping == map[] {
        return;
      }
      var emitted;
      if direction == Backward {
        emitted := SliceFunctionBackward(funcDef, FileName(filePath), importedSourceLines, paramMapping, listing);
      } else {
        emitted := SliceFunctionForward(funcDef, FileName(filePath), importedSourceLines, paramMapping, listing);
      }
      nodes := nodes + emitted;
    }
  }

  // ---------------------------------------------------------------------------
  // tracking inside a callee: each method hands back the nodes it appends to
  // `slice_nodes`, in order, and the visitor appends them

  /** `_forward_slice_imported_function` and `_forward_slice_local_function`: the
      body tracked forward from the bound parameters. */
  method SliceFunctionForward(funcDef: FuncDef, fileName: string, lines: seq<string>,
                              paramMapping: map<string, set<string>>, listing: Listing)
    returns (emitted: seq<SliceNode>)
    ensures emitted ==
      TrackForwardAll(Callee(fileName, lines, funcDef.name, listing), paramMapping.Keys, funcDef.body).nodes
  {
    ghost var c := Callee(fileName, lines, funcDef.name, listing);
    var affected := paramMapping.Keys;
    emitted := [];
    for i := 0 to |funcDef.body|
      invariant emitted == TrackForwardAll(c, paramMapping.Keys, funcDef.body[..i]).nodes
      invariant affected == TrackForwardAll(c, paramMapping.Keys, funcDef.body[..i]).vars
    {
      TrackForwardAllStep(c, paramMapping.Keys, funcDef.body, i);
      var more;
      more, affected := TrackStatementForward(funcDef.body[i], affected, fileName, lines, funcDef.name, listing);
      emitted := emitted + more;
    }
    assert funcDef.body[..|funcDef.body|] == funcDef.body;
  }

  /** `_backward_slice_imported_function` and `_backward_slice_local_function`. */
  method SliceFunctionBackward(funcDef: FuncDef, fileName: string, lines: seq<string>,
                               paramMapping: map<string, set<string>>, listing: Listing)
    returns (emitted: seq<SliceNode>)
    ensures emitted ==
      TrackBackwardAll(Callee(fileName, lines, funcDef.name, listing), paramMapping.Keys, funcDef.body).nodes
  {
    ghost var c := Callee(fileName, lines, funcDef.name, listing);
    var tracked := paramMapping.Keys;
    emitted := [];
    for i := 0 to |funcDef.body|
      invariant emitted == TrackBackwardAll(c, paramMapping.Keys, funcDef.body[..i]).nodes
      invariant tracked == TrackBackwardAll(c, paramMapping.Keys, funcDef.body[..i]).vars
    {
      TrackBackwardAllStep(c, paramMapping.Keys, funcDef.body, i);
      var more;
      more, tracked := TrackStatementBackward(funcDef.body[i], tracked, fileName, lines, funcDef.name, listing);
      emitted := emitted + more;
    }
    assert funcDef.body[..|funcDef.body|] == funcDef.body;
  }

  /** `_track_statement_forward`; the tracked set the source updates in place is
      passed in and handed back. */
  method TrackStatementForward(stmt: Stmt, affected: set<string>, fileName: string, lines: seq<string>,
                               functionName: string, listing: Listing)
    returns (emitted: seq<SliceNode>, affectedAfter: set<string>)
    ensures emitted == TrackForward(Callee(fileName, lines, functionName, listing), affected, stmt).nodes
    ensures affectedAfter == TrackForward(Callee(fileName, lines, functionName, listing), affected, stmt).vars
    decreases Size(stmt)
  {
    emitted := [];
    affectedAfter := affected;
    match stmt
    case Assign(targets, value, line) =>
      var rhsVars := GetNamesFromExpr(value);
      if rhsVars * affected != {} {
        var code := CodeAt(lines, line);
        var targetName := "";
        if targets != [] && targets[0].Name? {
          targetName := targets[0].id;
        }
        emitted := [SliceNode(fileName, line, functionName, code, Pick(listing, rhsVars * affected),
                              "assignment", listing(rhsVars * affected), None)];
        if targetName != "" {
          affectedAfter := affectedAfter + {targetName};
        }
      }
    case ExprStmt(Call(f, args, _, _), line) =>
      var argVars := ArgNames(args);
      if argVars * affected != {} {
        var code := CodeAt(lines, line);
        var funcName := FuncName(f);
        var relevant := argVars * affected;
        emitted := [SliceNode(fileName, line, functionName, code, Pick(listing, relevant),
                              "passed to " + funcName + "()", listing(relevant), None)];
      }
    case Return(Some(value), line) =>
      var returnVars := GetNamesFromExpr(value);
      if returnVars * affected != {} {
        var code := CodeAt(lines, line);
        emitted := [SliceNode(fileName, line, functionName, code, Pick(listing, returnVars * affected),
                              "returned", listing(returnVars * affected), None)];
      }
    case Try(_, _, _, _, _) =>
      emitted, affectedAfter := TrackSubStatements(stmt, affected, fileName, lines, functionName, listing);
    case With(items, _, line) =>
      var withNodes := TrackWithItems(items, affected, fileName, lines, functionName, line, listing);
      var more;
      more, affectedAfter := TrackSubStatements(stmt, affected, fileName, lines, functionName, listing);
      emitted := withNodes + more;
    case For(_, _, _, _, _) =>
      emitted, affectedAfter := TrackSubStatements(stmt, affected, fileName, lines, functionName, listing);
    case While(_, _, _, _) =>
      emitted, affectedAfter := TrackSubStatements(stmt, affected, fileName, lines, functionName, listing);
    case If(_, _, _, _) =>
      emitted, affectedAfter := TrackSubStatements(stmt, affected, fileName, lines, functionName, listing);
    case _ =>
  }

  /** The `with` branch of `_track_statement_forward`: a node for each item whose
      context expression mentions a tracked name. */
  method TrackWithItems(items: seq<WithItem>, affected: set<string>, fileName: string, lines: seq<string>,
                        functionName: string, line: Line, listing: Listing)
    returns (emitted: seq<SliceNode>)
    ensures emitted == WithNodes(Callee(fileName, lines, functionName, listing), affected, items, line)
  {
    ghost var c := Callee(fileName, lines, functionName, listing);
    emitted := [];
    for i := 0 to |items|
      invariant emitted == WithNodes(c, affected, items[..i], line)
    {
      assert items[..i + 1][..i] == items[..i];
      var contextVars := GetNamesFromExpr(items[i].context);
      if contextVars * affected != {} {
        var code := CodeAt(lines, line);
        emitted := emitted + [SliceNode(fileName, line, functionName, code, Pick(listing, contextVars * affected),
                                        "used in with statement", listing(contextVars * affected), None)];
      }
    }
    assert items[..|items|] == items;
  }

  /** The recursion of `_track_statement_forward` over a compound statement's
      sub-statements, all sharing one tracked set. */
  method TrackSubStatements(stmt: Stmt, affected: set<string>, fileName: string, lines: seq<string>,
                            functionName: string, listing: Listing)
    returns (emitted: seq<SliceNode>, affectedAfter: set<string>)
    ensures emitted == TrackForwardAll(Callee(fileName, lines, functionName, listing), affected, SubStmts(stmt)).nodes
    ensures affectedAfter == TrackForwardAll(Callee(fileName, lines, functionName, listing), affected, SubStmts(stmt)).vars
    decreases Size(stmt), 0
  {
    ghost var c := Callee(fileName, lines, functionName, listing);
    var subStmts := SubStmts(stmt);
    SubStmtsSize(stmt);
    emitted := [];
    affectedAfter := affected;
    for i := 0 to |subStmts|
      invariant emitted == TrackForwardAll(c, affected, subStmts[..i]).nodes
      invariant affectedAfter == TrackForwardAll(c, affected, subStmts[..i]).vars
    {
      TrackForwardAllStep(c, affected, subStmts, i);
      SizeAllElem(subStmts, i);
      var more;
      more, affectedAfter := TrackStatementForward(subStmts[i], affectedAfter, fileName, lines, functionName, listing);
      emitted := emitted + more;
    }
    assert subStmts[..|subStmts|] == subStmts;
  }

  /** `_track_statement_backward`; the tracked set is passed in and handed back. */
  method TrackStatementBackward(stmt: Stmt, tracked: set<string>, fileName: string, lines: seq<string>,
                                functionName: string, listing: Listing)
    returns (emitted: seq<SliceNode>, trackedAfter: set<string>)
    ensures emitted == TrackBackward(Callee(fileName, lines, functionName, listing), tracked, stmt).nodes
    ensures trackedAfter == TrackBackward(Callee(fileName, lines, functionName, listing), tracked, stmt).vars
  {
    var first;
    emitted, first := EmitBackward(stmt, tracked, fileName, lines, functionName, listing);
    trackedAfter := WalkRedefinitions(WalkStmt(stmt), first);
  }

  /** The part of `_track_statement_backward` before its walk: the node for a
      tracked assignment or call, and the names it adds. */
  method EmitBackward(stmt: Stmt, tracked: set<string>, fileName: string, lines: seq<string>,
                      functionName: string, listing: Listing)
    returns (emitted: seq<SliceNode>, trackedAfter: set<string>)
    ensures emitted == BackwardEmit(Callee(fileName, lines, functionName, listing), tracked, stmt).nodes
    ensures trackedAfter == BackwardEmit(Callee(fileName, lines, functionName, listing), tracked, stmt).vars
  {
    emitted := [];
    trackedAfter := tracked;
    match stmt {
      case Assign(targets, value, line) =>
        var rhsVars := GetNamesFromExpr(value);
        if rhsVars * trackedAfter != {} {
          var code := CodeAt(lines, line);
          var targetName := "";
          if targets != [] && targets[0].Name? {
            targetName := targets[0].id;
          }
          emitted := [SliceNode(fileName, line, functionName, code, Pick(listing, rhsVars * trackedAfter),
                                "assignment", listing(rhsVars * trackedAfter), None)];
          if targetName != "" {
            trackedAfter := trackedAfter + {targetName};
          }
        }
        trackedAfter := RedefineTargets(targets, value, trackedAfter);
      case ExprStmt(Call(f, args, _, _), line) =>
        var argVars := ArgNames(args);
        if argVars * tracked != {} {
          var code := CodeAt(lines, line);
          var funcName := FuncName(f);
          var relevant := argVars * tracked;
          emitted := [SliceNode(fileName, line, functionName, code, Pick(listing, relevant),
                                "passed to " + funcName + "()", listing(relevant), None)];
        }
      case _ =>
    }
  }

  /** The walk of `_track_statement_backward`: every assignment met, in walk order,
      whose target is tracked makes its right-hand names tracked. */
  method WalkRedefinitions(walked: seq<Stmt>, tracked: set<string>) returns (trackedAfter: set<string>)
    ensures trackedAfter == WalkUpdates(walked, tracked)
  {
    trackedAfter := tracked;
    for i := 0 to |walked|
      invariant trackedAfter == WalkUpdates(walked[..i], tracked)
    {
      assert walked[..i + 1][..i] == walked[..i];
      var child := walked[i];
      if child.Assign? {
        trackedAfter := RedefineTargets(child.targets, child.value, trackedAfter);
      }
    }
    assert walked[..|walked|] == walked;
  }

  /** `for target in targets: if target is a tracked name: tracked.update(names(value))`. */
  method RedefineTargets(targets: seq<Expr>, value: Expr, tracked: set<string>) returns (trackedAfter: set<string>)
    ensures trackedAfter == RedefinedTargets(targets, Names(value), tracked)
  {
    trackedAfter := tracked;
    for i := 0 to |targets|
      invariant trackedAfter == RedefinedTargets(targets[..i], Names(value), tracked)
    {
      assert targets[..i + 1][..i] == targets[..i];
      if targets[i].Name? && targets[i].id in trackedAfter {
        var dependencies := GetNamesFromExpr(value);
        trackedAfter := trackedAfter + dependencies;
      }
    }
    assert targets[..|targets|] == targets;
  }
}
