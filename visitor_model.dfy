/** The slicing visitor as a function of its state: what `SlicerVisitor` does
    to its nodes, its tracked sets, its function stack and its forward gate when
    it visits a statement or an expression. The class in `SlicerVisitors` is
    proved to compute exactly these functions; the properties of slicing are
    proved here, about them. */
module VisitorModel {
  import opened Wrappers
  import opened Strings
  import opened PyAst
  import opened NameAnalysis
  import opened Models
  import opened ImportResolution
  import opened Tracking

  /** What a visitor is given and never changes. `hasResolver` says whether an
      import resolver was passed; `fs` is the file system it reads. */
  datatype Env = Env(
    targetVar: string,
    targetLine: int,
    direction: SliceDirection,
    sourceLines: seq<string>,
    currentFile: string,
    imports: ImportMap,
    hasResolver: bool,
    fs: FileSystem,
    functionDefs: map<string, FuncDef>,
    listing: Listing)

  /** What a visitor changes as it goes. A backward visitor only uses `relevant`,
      a forward one only `affected` (the source creates just one of the two). */
  datatype VState = VState(
    nodes: seq<SliceNode>,
    currentFunction: string,
    functionStack: seq<string>,
    started: bool,
    targetFunction: Option<string>,
    relevant: set<string>,
    affected: set<string>)

  /** The state of a fresh visitor. */
  function InitialState(targetVar: string, direction: SliceDirection): (st: VState)
    ensures st.nodes == [] && st.functionStack == ["<module>"] && st.currentFunction == "<module>"
    ensures !st.started && st.targetFunction == None
    ensures direction == Backward ==> st.relevant == {targetVar} && st.affected == {}
    ensures direction != Backward ==> st.affected == {targetVar} && st.relevant == {}
  {
    VState([], "<module>", ["<module>"], false, None,
           if direction == Backward then {targetVar} else {},
           if direction == Backward then {} else {targetVar})
  }

  /** A node for the statement at `line` of the visited file, in the current function. */
  function Direct(e: Env, st: VState, line: Line, variable: string, operation: string,
                  deps: seq<string>, context: Option<string>): SliceNode {
    SliceNode(e.currentFile, line, st.currentFunction, CodeAt(e.sourceLines, line), variable, operation, deps, context)
  }

  /** Forward reporting is on: started, and inside the function that holds the target. */
  predicate InTarget(st: VState) {
    st.started && Some(st.currentFunction) == st.targetFunction
  }

  /** Only the nodes changed, by appending. */
  predicate OnlyNodes(st: VState, r: VState) {
    r == st.(nodes := r.nodes) && st.nodes <= r.nodes
  }

  // ---------------------------------------------------------------------------
  // following a call into the called function

  /** `_analyze_local_function_call`: the nodes emitted by slicing a function of
      the visited file, entered with the parameters that relevant arguments bind. */
  function LocalCall(e: Env, call: Expr, relevantArgs: set<string>): seq<SliceNode>
    requires call.Call?
  {
    if !call.func.Name? || call.func.id !in e.functionDefs then []
    else
      var def := e.functionDefs[call.func.id];
      var mapping := ParamMapping(def.params, call.args, relevantArgs);
      if mapping == map[] then []
      else
        var c := Callee(PathName(e.currentFile), e.sourceLines, def.name, e.listing);
        if e.direction == Backward then TrackBackwardAll(c, mapping.Keys, def.body).nodes
        else TrackForwardAll(c, mapping.Keys, def.body).nodes
  }

  /** `_analyze_cross_file_call`: an imported callee is sliced in its own file, with
      that file's lines; a name that is not imported is looked up in the visited file. */
  function CrossFileCall(e: Env, call: Expr, relevantArgs: set<string>): seq<SliceNode>
    requires call.Call?
  {
    if !call.func.Name? then []
    else if call.func.id !in e.imports then LocalCall(e, call, relevantArgs)
    else if !e.hasResolver then []
    else
      match FunctionSource(e.fs, call.func.id, e.imports)
      case None => []
      case Some((path, def)) =>
        if path !in e.fs.text then []
        else
          var mapping := ParamMapping(def.params, call.args, relevantArgs);
          if mapping == map[] then []
          else
            var c := Callee(FileName(path), ReadLines(e.fs.text[path]), def.name, e.listing);
            if e.direction == Backward then TrackBackwardAll(c, mapping.Keys, def.body).nodes
            else TrackForwardAll(c, mapping.Keys, def.body).nodes
  }

  // ---------------------------------------------------------------------------
  // what each visit method does before its generic visit

  /** `visit_FunctionDef`, backward: a `parameter` node for each relevant parameter. */
  function ParamNodes(e: Env, st: VState, s: Stmt, k: nat): (r: VState)
    requires s.FunctionDef? && k <= |s.params|
    ensures r == st.(nodes := r.nodes) && st.nodes <= r.nodes
  {
    if k == 0 then st
    else
      var t := ParamNodes(e, st, s, k - 1);
      var p := s.params[k - 1];
      if p in t.relevant then
        t.(nodes := t.nodes + [SliceNode(e.currentFile, s.line, t.currentFunction,
                                         "def " + s.name + "(..., " + p + ", ...)", p, "parameter", [], None)])
      else t
  }

  /** The backward loop of `visit_Assign` over the first `k` targets. */
  function AssignBackward(e: Env, st: VState, s: Stmt, k: nat): (r: VState)
    requires s.Assign? && k <= |s.targets|
    ensures r == st.(nodes := r.nodes, relevant := r.relevant)
    ensures st.nodes <= r.nodes && st.relevant <= r.relevant
  {
    if k == 0 then st
    else
      BackwardTarget(e, AssignBackward(e, st, s, k - 1), s, s.targets[k - 1])
  }

  /** One target of that loop: a tracked name reports the assignment, follows
      a call on the right, and makes the right side's names relevant. */
  function BackwardTarget(e: Env, t: VState, s: Stmt, target: Expr): (r: VState)
    requires s.Assign?
    ensures r == t.(nodes := r.nodes, relevant := r.relevant)
    ensures t.nodes <= r.nodes && t.relevant <= r.relevant
  {
    if target.Name? && target.id in t.relevant then
      var rhs := Names(s.value);
      var t1 := t.(nodes := t.nodes + [Direct(e, t, s.line, target.id, "assignment",
                                              e.listing(FilterMostSpecific(rhs)), None)]);
      var t2 := if s.value.Call? && s.value.func.Name? && NamesAll(s.value.args) != {}
                then t1.(nodes := t1.nodes + CrossFileCall(e, s.value, NamesAll(s.value.args)))
                else t1;
      t2.(relevant := t2.relevant + rhs)
    else t
  }

  /** The forward loop of `visit_Assign` over the first `k` targets. */
  function AssignForward(e: Env, st: VState, s: Stmt, k: nat): (r: VState)
    requires s.Assign? && k <= |s.targets|
    ensures r == st.(nodes := r.nodes, affected := r.affected)
    ensures st.nodes <= r.nodes && st.affected <= r.affected
  {
    if k == 0 then st
    else
      var t := AssignForward(e, st, s, k - 1);
      var target := s.targets[k - 1];
      if target.Name? then
        var inter := Names(s.value) * t.affected;
        t.(nodes := t.nodes + [Direct(e, t, s.line, target.id, "assignment", e.listing(inter), None)],
           affected := t.affected + {target.id})
      else t
  }

  /** `visit_Assign` before its generic visit. */
  function AssignOwn(e: Env, st: VState, s: Stmt): (r: VState)
    requires s.Assign?
    ensures r.functionStack == st.functionStack && r.currentFunction == st.currentFunction
    ensures r.started <==> st.started || (e.direction != Backward && s.line >= e.targetLine)
    ensures !st.started && r.started ==> r.targetFunction == Some(st.currentFunction)
    ensures st.started || e.direction == Backward ==> r.targetFunction == st.targetFunction
  {
    if e.direction == Backward then
      if s.line <= e.targetLine then AssignBackward(e, st, s, |s.targets|) else st
    else
      var s1 := if !st.started && s.line >= e.targetLine
                then st.(started := true, targetFunction := Some(st.currentFunction)) else st;
      if InTarget(s1) && Names(s.value) * s1.affected != {} then AssignForward(e, s1, s, |s.targets|) else s1
  }

  /** `visit_Expr` before its generic visit: a method call on a tracked object. */
  function ExprStmtOwn(e: Env, st: VState, s: Stmt): (r: VState)
    requires s.ExprStmt?
    ensures r == st.(nodes := r.nodes, relevant := r.relevant)
  {
    if s.value.Call? && s.value.func.Attribute? then
      var obj := BaseName(s.value.func.value);
      var operation := "." + s.value.func.attr + "()";
      if e.direction == Backward then
        if s.line <= e.targetLine && obj in st.relevant then
          var allArgs := NamesAll(s.value.args);
          st.(nodes := st.nodes + [Direct(e, st, s.line, obj, operation, e.listing(allArgs), None)],
              relevant := st.relevant + allArgs)
        else st
      else if InTarget(st) && obj in st.affected then
        st.(nodes := st.nodes + [Direct(e, st, s.line, obj, operation, [], None)])
      else st
    else st
  }

  /** `visit_For` before its generic visit. */
  function ForOwn(e: Env, st: VState, s: Stmt): (r: VState)
    requires s.For?
    ensures r == st.(nodes := r.nodes, relevant := r.relevant, affected := r.affected)
  {
    if e.direction == Backward then
      if s.line <= e.targetLine && s.target.Name? && s.target.id in st.relevant then
        var iterVars := Names(s.iter);
        st.(nodes := st.nodes + [Direct(e, st, s.line, s.target.id, "for loop", e.listing(iterVars),
                                        Some("iterates over " + SetRepr(e.listing, iterVars)))],
            relevant := st.relevant + iterVars)
      else st
    else if InTarget(st) then
      var inter := Names(s.iter) * st.affected;
      if inter != {} && s.target.Name? then
        st.(nodes := st.nodes + [Direct(e, st, s.line, s.target.id, "for loop", e.listing(inter),
                                        Some("iterates over " + SetRepr(e.listing, inter)))],
            affected := st.affected + {s.target.id})
      else st
    else st
  }

  /** The loop of `visit_Call` over the first `k` arguments: a `passed to f()` node
      for each argument mentioning an affected name, followed (when a resolver exists
      and the callee is a plain name) into the called function. */
  function CallArgs(e: Env, st: VState, x: Expr, k: nat): (r: VState)
    requires x.Call? && k <= |x.args|
    ensures OnlyNodes(st, r)
  {
    if k == 0 then st
    else
      var t := CallArgs(e, st, x, k - 1);
      if !InTarget(t) then t
      else
        var inter := Names(x.args[k - 1]) * t.affected;
        if inter == {} then t
        else
          var t1 := t.(nodes := t.nodes + [Direct(e, t, x.line, Pick(e.listing, inter),
                                                  "passed to " + FuncName(x.func) + "()", e.listing(inter), None)]);
          if e.hasResolver && x.func.Name? then t1.(nodes := t1.nodes + CrossFileCall(e, x, inter)) else t1
  }

  /** `visit_Call` before its generic visit: only a started forward visitor reports calls. */
  function CallOwn(e: Env, st: VState, x: Expr): (r: VState)
    requires x.Call?
    ensures OnlyNodes(st, r)
  {
    if e.direction == Forward && st.started then CallArgs(e, st, x, |x.args|) else st
  }

  // ---------------------------------------------------------------------------
  // visiting expressions

  function VisitExpr(e: Env, st: VState, x: Expr): (r: VState)
    ensures OnlyNodes(st, r)
    decreases x
  {
    match x
    case Name(_) => st
    case Attribute(v, _) => VisitExpr(e, st, v)
    case Call(f, args, keywords, _) =>
      VisitExprs(e, VisitExprs(e, VisitExpr(e, CallOwn(e, st, x), f), args), keywords)
    case Comp(_, elts, generators) => VisitComprehensions(e, VisitExprs(e, st, elts), generators)
    case Other(children) => VisitExprs(e, st, children)
  }

  function VisitExprs(e: Env, st: VState, xs: seq<Expr>): (r: VState)
    ensures OnlyNodes(st, r)
    decreases xs
  {
    if xs == [] then st else VisitExpr(e, VisitExprs(e, st, xs[..|xs| - 1]), xs[|xs| - 1])
  }

  function VisitComprehensions(e: Env, st: VState, gs: seq<Comprehension>): (r: VState)
    ensures OnlyNodes(st, r)
    decreases gs
  {
    if gs == [] then st
    else
      var g := gs[|gs| - 1];
      VisitExprs(e, VisitExpr(e, VisitExpr(e, VisitComprehensions(e, st, gs[..|gs| - 1]), g.target), g.iter), g.ifs)
  }

  function VisitItems(e: Env, st: VState, items: seq<WithItem>): (r: VState)
    ensures OnlyNodes(st, r)
    decreases |items|
  {
    if items == [] then st
    else
      var item := items[|items| - 1];
      var t := VisitExpr(e, VisitItems(e, st, items[..|items| - 1]), item.context);
      if item.vars.Some? then VisitExpr(e, t, item.vars.value) else t
  }

  // ---------------------------------------------------------------------------
  // visiting statements

  /** `visit_FunctionDef`: push the function, report its relevant parameters when
      slicing backward, visit the definition's fields (the parameter list's
      annotations and defaults, the body, the decorators and the return
      annotation), pop, and return to the enclosing function. */
  function VisitFunctionDef(e: Env, st: VState, s: Stmt): (r: VState)
    requires s.FunctionDef?
    ensures r.functionStack == st.functionStack
    decreases s, 0
  {
    var s1 := st.(functionStack := st.functionStack + [s.name], currentFunction := s.name);
    var s2 := if e.direction == Backward then ParamNodes(e, s1, s, |s.params|) else s1;
    var s3 := VisitExprs(e, VisitStmts(e, VisitExprs(e, s2, s.argExprs), s.body), s.tail);
    var stack := s3.functionStack[..|s3.functionStack| - 1];
    s3.(functionStack := stack, currentFunction := if stack != [] then stack[|stack| - 1] else "<module>")
  }

  function VisitStmt(e: Env, st: VState, s: Stmt): (r: VState)
    ensures r.functionStack == st.functionStack
    decreases s, 1
  {
    match s
    case FunctionDef(_, _, _, _, _, _) => VisitFunctionDef(e, st, s)
    case ClassDef(_, bases, body, decorators, _) =>
      VisitExprs(e, VisitStmts(e, VisitExprs(e, st, bases), body), decorators)
    case Assign(targets, value, _) => VisitExpr(e, VisitExprs(e, AssignOwn(e, st, s), targets), value)
    case ExprStmt(value, _) => VisitExpr(e, ExprStmtOwn(e, st, s), value)
    case For(target, iter, body, orelse, _) =>
      VisitStmts(e, VisitStmts(e, VisitExpr(e, VisitExpr(e, ForOwn(e, st, s), target), iter), body), orelse)
    case While(test, body, orelse, _) => VisitStmts(e, VisitStmts(e, VisitExpr(e, st, test), body), orelse)
    case If(test, body, orelse, _) => VisitStmts(e, VisitStmts(e, VisitExpr(e, st, test), body), orelse)
    case With(items, body, _) => VisitStmts(e, VisitItems(e, st, items), body)
    case Try(body, handlers, orelse, finalbody, _) =>
      VisitStmts(e, VisitStmts(e, VisitHandlers(e, VisitStmts(e, st, body), handlers), orelse), finalbody)
    case Return(result, _) => if result.Some? then VisitExpr(e, st, result.value) else st
    case Import(_, _) => st
    case ImportFrom(_, _, _) => st
    case Simple(parts, _) => VisitParts(e, st, parts)
  }

  function VisitStmts(e: Env, st: VState, ss: seq<Stmt>): (r: VState)
    ensures r.functionStack == st.functionStack
    decreases ss
  {
    if ss == [] then st else VisitStmt(e, VisitStmts(e, st, ss[..|ss| - 1]), ss[|ss| - 1])
  }

  function VisitHandlers(e: Env, st: VState, hs: seq<Handler>): (r: VState)
    ensures r.functionStack == st.functionStack
    decreases hs
  {
    if hs == [] then st
    else
      var h := hs[|hs| - 1];
      var t := VisitHandlers(e, st, hs[..|hs| - 1]);
      VisitStmts(e, if h.typ.Some? then VisitExpr(e, t, h.typ.value) else t, h.body)
  }

  /** The generic visit of a statement of another kind: its fields in order. */
  function VisitParts(e: Env, st: VState, ps: seq<Part>): (r: VState)
    ensures r.functionStack == st.functionStack
    decreases ps
  {
    if ps == [] then st else VisitPart(e, VisitParts(e, st, ps[..|ps| - 1]), ps[|ps| - 1])
  }

  function VisitPart(e: Env, st: VState, p: Part): (r: VState)
    ensures r.functionStack == st.functionStack
    decreases p
  {
    match p
    case E(x) => VisitExpr(e, st, x)
    case B(block) => VisitStmts(e, st, block)
    case N(fields) => VisitParts(e, st, fields)
  }

  /** `visitor.visit(tree)`. */
  function VisitModule(e: Env, st: VState, m: Module): (r: VState)
    ensures r.functionStack == st.functionStack
  {
    VisitStmts(e, st, m.body)
  }

  // ---------------------------------------------------------------------------
  // what a visit keeps

  /** Nodes are only appended, tracked names only added, and once forward reporting
      has started it stays started, in the same target function. */
  predicate Grows(st: VState, r: VState) {
    && st.nodes <= r.nodes && st.relevant <= r.relevant && st.affected <= r.affected
    && (st.started ==> r.started && r.targetFunction == st.targetFunction)
  }

  /** The current function is the top of the function stack. */
  predicate Framed(st: VState) {
    st.functionStack != [] && st.currentFunction == st.functionStack[|st.functionStack| - 1]
  }

  lemma GrowsTrans(a: VState, b: VState, c: VState)
    requires Grows(a, b) && Grows(b, c)
    ensures Grows(a, c)
  {
  }

  lemma OwnGrows(e: Env, st: VState, s: Stmt)
    ensures s.Assign? ==> Grows(st, AssignOwn(e, st, s))
    ensures s.ExprStmt? ==> Grows(st, ExprStmtOwn(e, st, s))
    ensures s.For? ==> Grows(st, ForOwn(e, st, s))
    ensures s.FunctionDef? ==> Grows(st, ParamNodes(e, st, s, |s.params|))
  {
  }

  /** Visiting a statement keeps everything `Grows` promises, and a visitor whose
      current function is the top of its stack is back in that function afterwards:
      `visit_FunctionDef` pops what it pushed. */
  lemma {:induction false} VisitStmtGrows(e: Env, st: VState, s: Stmt)
    ensures Grows(st, VisitStmt(e, st, s))
    ensures Framed(st) ==> VisitStmt(e, st, s).currentFunction == st.currentFunction
    decreases s, 1
  {
    match s
    case FunctionDef(_, _, _, _, _, _) => FunctionDefGrows(e, st, s);
    case ClassDef(_, bases, body, _, _) => VisitStmtsGrows(e, VisitExprs(e, st, bases), body);
    case Assign(_, _, _) => OwnGrows(e, st, s);
    case ExprStmt(_, _) => OwnGrows(e, st, s);
    case For(_, _, _, _, _) => ForGrows(e, st, s);
    case While(_, _, _, _) => WhileGrows(e, st, s);
    case If(_, _, _, _) => IfGrows(e, st, s);
    case With(items, body, _) => VisitStmtsGrows(e, VisitItems(e, st, items), body);
    case Try(_, _, _, _, _) => TryGrows(e, st, s);
    case Return(_, _) =>
    case Import(_, _) =>
    case ImportFrom(_, _, _) =>
    case Simple(parts, _) => VisitPartsGrows(e, st, parts);
  }

  lemma {:induction false} FunctionDefGrows(e: Env, st: VState, s: Stmt)
    requires s.FunctionDef?
    ensures Grows(st, VisitStmt(e, st, s))
    ensures Framed(st) ==> VisitStmt(e, st, s).currentFunction == st.currentFunction
    decreases s, 0
  {
    var s1 := st.(functionStack := st.functionStack + [s.name], currentFunction := s.name);
    OwnGrows(e, s1, s);
    var s2 := if e.direction == Backward then ParamNodes(e, s1, s, |s.params|) else s1;
    VisitStmtsGrows(e, VisitExprs(e, s2, s.argExprs), s.body);
  }

  lemma {:induction false} ForGrows(e: Env, st: VState, s: Stmt)
    requires s.For?
    ensures Grows(st, VisitStmt(e, st, s))
    ensures Framed(st) ==> VisitStmt(e, st, s).currentFunction == st.currentFunction
    decreases s, 0
  {
    var s1 := VisitExpr(e, VisitExpr(e, ForOwn(e, st, s), s.target), s.iter);
    OwnGrows(e, st, s);
    VisitStmtsGrows(e, s1, s.body);
    VisitStmtsGrows(e, VisitStmts(e, s1, s.body), s.orelse);
    GrowsTrans(st, s1, VisitStmts(e, s1, s.body));
  }

  lemma {:induction false} WhileGrows(e: Env, st: VState, s: Stmt)
    requires s.While?
    ensures Grows(st, VisitStmt(e, st, s))
    ensures Framed(st) ==> VisitStmt(e, st, s).currentFunction == st.currentFunction
    decreases s, 0
  {
    var s1 := VisitExpr(e, st, s.test);
    VisitStmtsGrows(e, s1, s.body);
    VisitStmtsGrows(e, VisitStmts(e, s1, s.body), s.orelse);
  }

  lemma {:induction false} IfGrows(e: Env, st: VState, s: Stmt)
    requires s.If?
    ensures Grows(st, VisitStmt(e, st, s))
    ensures Framed(st) ==> VisitStmt(e, st, s).currentFunction == st.currentFunction
    decreases s, 0
  {
    var s1 := VisitExpr(e, st, s.test);
    VisitStmtsGrows(e, s1, s.body);
    VisitStmtsGrows(e, VisitStmts(e, s1, s.body), s.orelse);
  }

  lemma {:induction false} TryGrows(e: Env, st: VState, s: Stmt)
    requires s.Try?
    ensures Grows(st, VisitStmt(e, st, s))
    ensures Framed(st) ==> VisitStmt(e, st, s).currentFunction == st.currentFunction
    decreases s, 0
  {
    var s1 := VisitStmts(e, st, s.body);
    var s2 := VisitHandlers(e, s1, s.handlers);
    var s3 := VisitStmts(e, s2, s.orelse);
    VisitStmtsGrows(e, st, s.body);
    VisitHandlersGrows(e, s1, s.handlers);
    VisitStmtsGrows(e, s2, s.orelse);
    VisitStmtsGrows(e, s3, s.finalbody);
    GrowsTrans(st, s1, s2);
    GrowsTrans(st, s2, s3);
  }

  lemma {:induction false} VisitStmtsGrows(e: Env, st: VState, ss: seq<Stmt>)
    ensures Grows(st, VisitStmts(e, st, ss))
    ensures Framed(st) ==> VisitStmts(e, st, ss).currentFunction == st.currentFunction
    decreases ss
  {
    if ss != [] {
      var n := |ss| - 1;
      VisitStmtsGrows(e, st, ss[..n]);
      VisitStmtGrows(e, VisitStmts(e, st, ss[..n]), ss[n]);
    }
  }

  lemma {:induction false} VisitHandlersGrows(e: Env, st: VState, hs: seq<Handler>)
    ensures Grows(st, VisitHandlers(e, st, hs))
    ensures Framed(st) ==> VisitHandlers(e, st, hs).currentFunction == st.currentFunction
    decreases hs
  {
    if hs != [] {
      var n := |hs| - 1;
      var h := hs[n];
      var t := VisitHandlers(e, st, hs[..n]);
      VisitHandlersGrows(e, st, hs[..n]);
      VisitStmtsGrows(e, if h.typ.Some? then VisitExpr(e, t, h.typ.value) else t, h.body);
    }
  }

  lemma {:induction false} VisitPartsGrows(e: Env, st: VState, ps: seq<Part>)
    ensures Grows(st, VisitParts(e, st, ps))
    ensures Framed(st) ==> VisitParts(e, st, ps).currentFunction == st.currentFunction
    decreases ps
  {
    if ps != [] {
      var n := |ps| - 1;
      VisitPartsGrows(e, st, ps[..n]);
      VisitPartGrows(e, VisitParts(e, st, ps[..n]), ps[n]);
    }
  }

  lemma {:induction false} VisitPartGrows(e: Env, st: VState, p: Part)
    ensures Grows(st, VisitPart(e, st, p))
    ensures Framed(st) ==> VisitPart(e, st, p).currentFunction == st.currentFunction
    decreases p
  {
    match p
    case E(_) =>
    case B(block) => VisitStmtsGrows(e, st, block);
    case N(fields) => VisitPartsGrows(e, st, fields);
  }

  // ---------------------------------------------------------------------------
  // where forward reporting starts

  /** `r.started` holds exactly when it already held in `st`, or when the visit
      passed an assignment at or below the criterion line (`reaches`) and the
      visitor is not a backward one. */
  predicate StartedBy(e: Env, st: VState, r: VState, reaches: bool) {
    r.started <==> st.started || (e.direction != Backward && reaches)
  }

  /** A visitor that is not backward starts reporting at the first assignment at
      or below the criterion line, wherever it is nested, and only there. */
  lemma {:induction false} VisitStmtStarts(e: Env, st: VState, s: Stmt)
    ensures StartedBy(e, st, VisitStmt(e, st, s), Reaches(s, e.targetLine))
    decreases s, 1
  {
    match s
    case FunctionDef(_, _, _, _, _, _) => FunctionDefStarts(e, st, s);
    case ClassDef(_, bases, body, _, _) => VisitStmtsStarts(e, VisitExprs(e, st, bases), body);
    case Assign(_, _, _) =>
    case ExprStmt(_, _) =>
    case For(target, iter, body, orelse, _) =>
      var s1 := VisitExpr(e, VisitExpr(e, ForOwn(e, st, s), target), iter);
      VisitStmtsStarts(e, s1, body);
      VisitStmtsStarts(e, VisitStmts(e, s1, body), orelse);
    case While(test, body, orelse, _) =>
      var s1 := VisitExpr(e, st, test);
      VisitStmtsStarts(e, s1, body);
      VisitStmtsStarts(e, VisitStmts(e, s1, body), orelse);
    case If(test, body, orelse, _) =>
      var s1 := VisitExpr(e, st, test);
      VisitStmtsStarts(e, s1, body);
      VisitStmtsStarts(e, VisitStmts(e, s1, body), orelse);
    case With(items, body, _) => VisitStmtsStarts(e, VisitItems(e, st, items), body);
    case Try(body, handlers, orelse, finalbody, _) =>
      var s1 := VisitStmts(e, st, body);
      var s2 := VisitHandlers(e, s1, handlers);
      var s3 := VisitStmts(e, s2, orelse);
      VisitStmtsStarts(e, st, body);
      VisitHandlersStarts(e, s1, handlers);
      VisitStmtsStarts(e, s2, orelse);
      VisitStmtsStarts(e, s3, finalbody);
    case Return(_, _) =>
    case Import(_, _) =>
    case ImportFrom(_, _, _) =>
    case Simple(parts, _) => VisitPartsStarts(e, st, parts);
  }

  lemma {:induction false} FunctionDefStarts(e: Env, st: VState, s: Stmt)
    requires s.FunctionDef?
    ensures StartedBy(e, st, VisitStmt(e, st, s), Reaches(s, e.targetLine))
    decreases s, 0
  {
    var s1 := st.(functionStack := st.functionStack + [s.name], currentFunction := s.name);
    var s2 := if e.direction == Backward then ParamNodes(e, s1, s, |s.params|) else s1;
    VisitStmtsStarts(e, VisitExprs(e, s2, s.argExprs), s.body);
  }

  lemma {:induction false} VisitStmtsStarts(e: Env, st: VState, ss: seq<Stmt>)
    ensures StartedBy(e, st, VisitStmts(e, st, ss), ReachesAll(ss, e.targetLine))
    decreases ss
  {
    if ss != [] {
      var n := |ss| - 1;
      VisitStmtsStarts(e, st, ss[..n]);
      VisitStmtStarts(e, VisitStmts(e, st, ss[..n]), ss[n]);
    }
  }

  lemma {:induction false} VisitHandlersStarts(e: Env, st: VState, hs: seq<Handler>)
    ensures StartedBy(e, st, VisitHandlers(e, st, hs), ReachesHandlers(hs, e.targetLine))
    decreases hs
  {
    if hs != [] {
      var n := |hs| - 1;
      var h := hs[n];
      var t := VisitHandlers(e, st, hs[..n]);
      VisitHandlersStarts(e, st, hs[..n]);
      VisitStmtsStarts(e, if h.typ.Some? then VisitExpr(e, t, h.typ.value) else t, h.body);
    }
  }

  lemma {:induction false} VisitPartsStarts(e: Env, st: VState, ps: seq<Part>)
    ensures StartedBy(e, st, VisitParts(e, st, ps), ReachesParts(ps, e.targetLine))
    decreases ps
  {
    if ps != [] {
      var n := |ps| - 1;
      VisitPartsStarts(e, st, ps[..n]);
      VisitPartStarts(e, VisitParts(e, st, ps[..n]), ps[n]);
    }
  }

  lemma {:induction false} VisitPartStarts(e: Env, st: VState, p: Part)
    ensures StartedBy(e, st, VisitPart(e, st, p), ReachesPart(p, e.targetLine))
    decreases p
  {
    match p
    case E(_) =>
    case B(block) => VisitStmtsStarts(e, st, block);
    case N(fields) => VisitPartsStarts(e, st, fields);
  }

  /** A module with no assignment at or below the criterion line gives a forward
      visitor nothing to report. */
  lemma ForwardNeedsCriterion(e: Env, m: Module)
    requires e.direction == Forward && !ReachesAll(m.body, e.targetLine)
    ensures VisitModule(e, InitialState(e.targetVar, Forward), m).nodes == []
  {
    var st := InitialState(e.targetVar, Forward);
    VisitStmtsStarts(e, st, m.body);
    ForwardDirectStmts(e, st, m.body);
  }

  // ---------------------------------------------------------------------------
  // visiting expressions reports only in forward mode

  /** `visit_Call` compares the direction with FORWARD, so a backward (or both-ways)
      visitor walks expressions without any effect. */
  lemma {:induction false} ExprInert(e: Env, st: VState, x: Expr)
    requires e.direction != Forward
    ensures VisitExpr(e, st, x) == st
    decreases x
  {
    match x
    case Name(_) =>
    case Attribute(v, _) => ExprInert(e, st, v);
    case Call(f, args, keywords, _) =>
      ExprInert(e, st, f);
      ExprsInert(e, st, args);
      ExprsInert(e, st, keywords);
    case Comp(_, elts, generators) =>
      ExprsInert(e, st, elts);
      ComprehensionsInert(e, st, generators);
    case Other(children) => ExprsInert(e, st, children);
  }

  lemma {:induction false} ExprsInert(e: Env, st: VState, xs: seq<Expr>)
    requires e.direction != Forward
    ensures VisitExprs(e, st, xs) == st
    decreases xs
  {
    if xs != [] {
      ExprsInert(e, st, xs[..|xs| - 1]);
      ExprInert(e, st, xs[|xs| - 1]);
    }
  }

  lemma {:induction false} ComprehensionsInert(e: Env, st: VState, gs: seq<Comprehension>)
    requires e.direction != Forward
    ensures VisitComprehensions(e, st, gs) == st
    decreases gs
  {
    if gs != [] {
      var g := gs[|gs| - 1];
      ComprehensionsInert(e, st, gs[..|gs| - 1]);
      ExprInert(e, st, g.target);
      ExprInert(e, st, g.iter);
      ExprsInert(e, st, g.ifs);
    }
  }

  lemma {:induction false} ItemsInert(e: Env, st: VState, items: seq<WithItem>)
    requires e.direction != Forward
    ensures VisitItems(e, st, items) == st
    decreases |items|
  {
    if items != [] {
      var item := items[|items| - 1];
      ItemsInert(e, st, items[..|items| - 1]);
      ExprInert(e, st, item.context);
      if item.vars.Some? {
        ExprInert(e, st, item.vars.value);
      }
    }
  }

  // ---------------------------------------------------------------------------
  // the functions a visitor can follow a call into

  /** The functions of the visited file, each with the file and function name its
      nodes are labelled with: the visited file's base name and the definition's name. */
  function LocalSites(e: Env): set<(string, string)> {
    set name | name in e.functionDefs :: (PathName(e.currentFile), e.functionDefs[name].name)
  }

  /** The imported names, each with the file and function name the import map
      gives: the nodes of an imported function are labelled with these. */
  function ImportedSites(e: Env): set<(string, string)> {
    set name | name in e.imports :: (FileName(e.imports[name].path), e.imports[name].name)
  }

  /** Where a followed call can report nodes: a function of the visited file, or,
      when a resolver was passed, an imported function. */
  function CalleeSites(e: Env): set<(string, string)> {
    LocalSites(e) + (if e.hasResolver then ImportedSites(e) else {})
  }

  /** Every node a followed call reports is labelled with one of the callee sites. */
  lemma {:induction false} CallSites(e: Env, call: Expr, relevantArgs: set<string>)
    requires call.Call?
    ensures forall n :: n in LocalCall(e, call, relevantArgs) ==> (n.file, n.func) in LocalSites(e)
    ensures forall n :: n in CrossFileCall(e, call, relevantArgs) ==> (n.file, n.func) in CalleeSites(e)
  {
    LocalCallSites(e, call, relevantArgs);
    if call.func.Name? && call.func.id in e.imports && e.hasResolver {
      var name := call.func.id;
      match FunctionSource(e.fs, name, e.imports)
      case None =>
      case Some((path, def)) =>
        if path in e.fs.text {
          var mapping := ParamMapping(def.params, call.args, relevantArgs);
          var c := Callee(FileName(path), ReadLines(e.fs.text[path]), def.name, e.listing);
          assert (c.file, c.func) in ImportedSites(e) by {
            assert c.file == FileName(e.imports[name].path) && c.func == e.imports[name].name;
          }
          TrackBackwardAllLabelled(c, mapping.Keys, def.body);
          TrackForwardAllEmitted(c, mapping.Keys, def.body);
        }
    }
  }

  lemma LocalCallSites(e: Env, call: Expr, relevantArgs: set<string>)
    requires call.Call?
    ensures forall n :: n in LocalCall(e, call, relevantArgs) ==> (n.file, n.func) in LocalSites(e)
  {
    if call.func.Name? && call.func.id in e.functionDefs {
      var def := e.functionDefs[call.func.id];
      var mapping := ParamMapping(def.params, call.args, relevantArgs);
      var c := Callee(PathName(e.currentFile), e.sourceLines, def.name, e.listing);
      assert (c.file, c.func) in LocalSites(e);
      TrackBackwardAllLabelled(c, mapping.Keys, def.body);
      TrackForwardAllEmitted(c, mapping.Keys, def.body);
    }
  }

  // ---------------------------------------------------------------------------
  // forward reporting stays in the target function

  /** The functions a forward visitor can follow a call into: it follows calls
      only when a resolver was passed. */
  function ForwardSites(e: Env): set<(string, string)> {
    if e.hasResolver then CalleeSites(e) else {}
  }

  /** A node of the visited file in the function that holds the criterion, or a
      node of a function a call was followed into. */
  predicate ForwardNode(e: Env, r: VState, n: SliceNode) {
    (n.file == e.currentFile && Some(n.func) == r.targetFunction) || (n.file, n.func) in ForwardSites(e)
  }

  /** Every node appended since `st` was reported after the criterion was reached,
      and is a `ForwardNode`. */
  predicate DirectSince(e: Env, st: VState, r: VState) {
    && (|st.nodes| < |r.nodes| ==> r.started)
    && forall i :: |st.nodes| <= i < |r.nodes| ==> ForwardNode(e, r, r.nodes[i])
  }

  predicate ForwardStep(e: Env, st: VState, r: VState) {
    Grows(st, r) && DirectSince(e, st, r)
  }

  lemma ForwardStepTrans(e: Env, a: VState, b: VState, c: VState)
    requires ForwardStep(e, a, b) && ForwardStep(e, b, c)
    ensures ForwardStep(e, a, c)
  {
    forall i | |a.nodes| <= i < |b.nodes|
      ensures ForwardNode(e, c, c.nodes[i])
    {
      assert c.nodes[i] == b.nodes[i];
    }
  }

  lemma {:induction false} CallArgsDirect(e: Env, st: VState, x: Expr, k: nat)
    requires x.Call? && k <= |x.args|
    ensures ForwardStep(e, st, CallArgs(e, st, x, k))
  {
    if k > 0 {
      CallArgsDirect(e, st, x, k - 1);
      CallArgDirect(e, st, x, k);
      ForwardStepTrans(e, st, CallArgs(e, st, x, k - 1), CallArgs(e, st, x, k));
    }
  }

  /** The `k`-th argument of `visit_Call`'s loop. */
  lemma CallArgDirect(e: Env, st: VState, x: Expr, k: nat)
    requires x.Call? && 0 < k <= |x.args|
    ensures ForwardStep(e, CallArgs(e, st, x, k - 1), CallArgs(e, st, x, k))
  {
    var t := CallArgs(e, st, x, k - 1);
    var r := CallArgs(e, st, x, k);
    var inter := Names(x.args[k - 1]) * t.affected;
    if InTarget(t) && inter != {} {
      var t1 := t.(nodes := t.nodes + [Direct(e, t, x.line, Pick(e.listing, inter),
                                              "passed to " + FuncName(x.func) + "()", e.listing(inter), None)]);
      assert ForwardNode(e, r, t1.nodes[|t.nodes|]);
      if e.hasResolver && x.func.Name? {
        var added := CrossFileCall(e, x, inter);
        CallSites(e, x, inter);
        assert r.nodes == t1.nodes + added;
        forall i | |t1.nodes| <= i < |r.nodes|
          ensures ForwardNode(e, r, r.nodes[i])
        {
          assert r.nodes[i] in added;
        }
      }
    }
  }

  lemma {:induction false} ForwardDirectExpr(e: Env, st: VState, x: Expr)
    ensures ForwardStep(e, st, VisitExpr(e, st, x))
    decreases x
  {
    match x
    case Name(_) =>
    case Attribute(v, _) => ForwardDirectExpr(e, st, v);
    case Call(f, args, keywords, _) =>
      var s1 := CallOwn(e, st, x);
      var s2 := VisitExpr(e, s1, f);
      var s3 := VisitExprs(e, s2, args);
      CallArgsDirect(e, st, x, |args|);
      ForwardDirectExpr(e, s1, f);
      ForwardDirectExprs(e, s2, args);
      ForwardDirectExprs(e, s3, keywords);
      ForwardStepTrans(e, st, s1, s2);
      ForwardStepTrans(e, st, s2, s3);
      ForwardStepTrans(e, st, s3, VisitExprs(e, s3, keywords));
    case Comp(_, elts, generators) =>
      ForwardDirectExprs(e, st, elts);
      ForwardDirectComprehensions(e, VisitExprs(e, st, elts), generators);
      ForwardStepTrans(e, st, VisitExprs(e, st, elts), VisitExpr(e, st, x));
    case Other(children) => ForwardDirectExprs(e, st, children);
  }

  lemma {:induction false} ForwardDirectExprs(e: Env, st: VState, xs: seq<Expr>)
    ensures ForwardStep(e, st, VisitExprs(e, st, xs))
    decreases xs
  {
    if xs != [] {
      var t := VisitExprs(e, st, xs[..|xs| - 1]);
      ForwardDirectExprs(e, st, xs[..|xs| - 1]);
      ForwardDirectExpr(e, t, xs[|xs| - 1]);
      ForwardStepTrans(e, st, t, VisitExprs(e, st, xs));
    }
  }

  lemma {:induction false} ForwardDirectComprehensions(e: Env, st: VState, gs: seq<Comprehension>)
    ensures ForwardStep(e, st, VisitComprehensions(e, st, gs))
    decreases gs
  {
    if gs != [] {
      var g := gs[|gs| - 1];
      var t0 := VisitComprehensions(e, st, gs[..|gs| - 1]);
      var t1 := VisitExpr(e, t0, g.target);
      var t2 := VisitExpr(e, t1, g.iter);
      ForwardDirectComprehensions(e, st, gs[..|gs| - 1]);
      ForwardDirectExpr(e, t0, g.target);
      ForwardDirectExpr(e, t1, g.iter);
      ForwardDirectExprs(e, t2, g.ifs);
      ForwardStepTrans(e, st, t0, t1);
      ForwardStepTrans(e, st, t1, t2);
      ForwardStepTrans(e, st, t2, VisitExprs(e, t2, g.ifs));
    }
  }

  lemma {:induction false} ForwardDirectItems(e: Env, st: VState, items: seq<WithItem>)
    ensures ForwardStep(e, st, VisitItems(e, st, items))
    decreases |items|
  {
    if items != [] {
      var item := items[|items| - 1];
      var t0 := VisitItems(e, st, items[..|items| - 1]);
      var t1 := VisitExpr(e, t0, item.context);
      ForwardDirectItems(e, st, items[..|items| - 1]);
      ForwardDirectExpr(e, t0, item.context);
      ForwardStepTrans(e, st, t0, t1);
      if item.vars.Some? {
        ForwardDirectExpr(e, t1, item.vars.value);
        ForwardStepTrans(e, st, t1, VisitExpr(e, t1, item.vars.value));
      }
    }
  }

  lemma {:induction false} AssignForwardDirect(e: Env, st: VState, s: Stmt, k: nat)
    requires s.Assign? && k <= |s.targets| && InTarget(st)
    ensures ForwardStep(e, st, AssignForward(e, st, s, k))
  {
    if k > 0 {
      AssignForwardDirect(e, st, s, k - 1);
    }
  }

  lemma OwnDirect(e: Env, st: VState, s: Stmt)
    requires e.direction == Forward
    ensures s.Assign? ==> ForwardStep(e, st, AssignOwn(e, st, s))
    ensures s.ExprStmt? ==> ForwardStep(e, st, ExprStmtOwn(e, st, s))
    ensures s.For? ==> ForwardStep(e, st, ForOwn(e, st, s))
  {
    if s.Assign? {
      var s1 := if !st.started && s.line >= e.targetLine
                then st.(started := true, targetFunction := Some(st.currentFunction)) else st;
      if InTarget(s1) && Names(s.value) * s1.affected != {} {
        AssignForwardDirect(e, s1, s, |s.targets|);
        ForwardStepTrans(e, st, s1, AssignOwn(e, st, s));
      }
    }
  }

  /** A forward visitor reports only once the criterion line has been reached,
      and every node it appends is either its own — a line of the visited file in
      the function that holds the criterion — or a node of a function it followed
      a call into, which it does only with a resolver. */
  lemma {:induction false} ForwardDirectStmt(e: Env, st: VState, s: Stmt)
    requires e.direction == Forward
    ensures ForwardStep(e, st, VisitStmt(e, st, s))
    ensures VisitStmt(e, st, s).started <==> st.started || Reaches(s, e.targetLine)
    decreases s, 1
  {
    VisitStmtStarts(e, st, s);
    VisitStmtGrows(e, st, s);
    OwnDirect(e, st, s);
    match s
    case FunctionDef(name, _, argExprs, body, tail, _) =>
      var s1 := st.(functionStack := st.functionStack + [name], currentFunction := name);
      var s2 := VisitExprs(e, s1, argExprs);
      var s3 := VisitStmts(e, s2, body);
      ForwardDirectExprs(e, s1, argExprs);
      ForwardDirectStmts(e, s2, body);
      ForwardDirectExprs(e, s3, tail);
      ForwardStepTrans(e, s1, s2, s3);
      ForwardStepTrans(e, s1, s3, VisitExprs(e, s3, tail));
    case ClassDef(_, bases, body, decorators, _) =>
      var s1 := VisitExprs(e, st, bases);
      var s2 := VisitStmts(e, s1, body);
      ForwardDirectExprs(e, st, bases);
      ForwardDirectStmts(e, s1, body);
      ForwardDirectExprs(e, s2, decorators);
      ForwardStepTrans(e, st, s1, s2);
      ForwardStepTrans(e, st, s2, VisitStmt(e, st, s));
    case Assign(targets, value, _) =>
      var s1 := AssignOwn(e, st, s);
      var s2 := VisitExprs(e, s1, targets);
      ForwardDirectExprs(e, s1, targets);
      ForwardDirectExpr(e, s2, value);
      ForwardStepTrans(e, st, s1, s2);
      ForwardStepTrans(e, st, s2, VisitStmt(e, st, s));
    case ExprStmt(value, _) =>
      ForwardDirectExpr(e, ExprStmtOwn(e, st, s), value);
      ForwardStepTrans(e, st, ExprStmtOwn(e, st, s), VisitStmt(e, st, s));
    case For(target, iter, body, orelse, _) =>
      var s1 := ForOwn(e, st, s);
      var s2 := VisitExpr(e, s1, target);
      var s3 := VisitExpr(e, s2, iter);
      var s4 := VisitStmts(e, s3, body);
      ForwardDirectExpr(e, s1, target);
      ForwardDirectExpr(e, s2, iter);
      ForwardDirectStmts(e, s3, body);
      ForwardDirectStmts(e, s4, orelse);
      ForwardStepTrans(e, st, s1, s2);
      ForwardStepTrans(e, st, s2, s3);
      ForwardStepTrans(e, st, s3, s4);
      ForwardStepTrans(e, st, s4, VisitStmt(e, st, s));
    case While(_, _, _, _) => ForwardDirectBranches(e, st, s);
    case If(_, _, _, _) => ForwardDirectBranches(e, st, s);
    case With(items, body, _) =>
      ForwardDirectItems(e, st, items);
      ForwardDirectStmts(e, VisitItems(e, st, items), body);
      ForwardStepTrans(e, st, VisitItems(e, st, items), VisitStmt(e, st, s));
    case Try(body, handlers, orelse, finalbody, _) =>
      var s1 := VisitStmts(e, st, body);
      var s2 := VisitHandlers(e, s1, handlers);
      var s3 := VisitStmts(e, s2, orelse);
      ForwardDirectStmts(e, st, body);
      ForwardDirectHandlers(e, s1, handlers);
      ForwardDirectStmts(e, s2, orelse);
      ForwardDirectStmts(e, s3, finalbody);
      ForwardStepTrans(e, st, s1, s2);
      ForwardStepTrans(e, st, s2, s3);
      ForwardStepTrans(e, st, s3, VisitStmt(e, st, s));
    case Return(result, _) =>
      if result.Some? {
        ForwardDirectExpr(e, st, result.value);
      }
    case Import(_, _) =>
    case ImportFrom(_, _, _) =>
    case Simple(parts, _) => ForwardDirectParts(e, st, parts);
  }

  lemma {:induction false} ForwardDirectBranches(e: Env, st: VState, s: Stmt)
    requires e.direction == Forward && (s.While? || s.If?)
    ensures ForwardStep(e, st, VisitStmts(e, VisitStmts(e, VisitExpr(e, st, s.test), s.body), s.orelse))
    decreases s, 0
  {
    var s1 := VisitExpr(e, st, s.test);
    var s2 := VisitStmts(e, s1, s.body);
    ForwardDirectExpr(e, st, s.test);
    ForwardDirectStmts(e, s1, s.body);
    ForwardDirectStmts(e, s2, s.orelse);
    ForwardStepTrans(e, st, s1, s2);
    ForwardStepTrans(e, st, s2, VisitStmts(e, s2, s.orelse));
  }

  lemma {:induction false} ForwardDirectStmts(e: Env, st: VState, ss: seq<Stmt>)
    requires e.direction == Forward
    ensures ForwardStep(e, st, VisitStmts(e, st, ss))
    ensures VisitStmts(e, st, ss).started <==> st.started || ReachesAll(ss, e.targetLine)
    decreases ss
  {
    VisitStmtsStarts(e, st, ss);
    if ss != [] {
      var t := VisitStmts(e, st, ss[..|ss| - 1]);
      ForwardDirectStmts(e, st, ss[..|ss| - 1]);
      ForwardDirectStmt(e, t, ss[|ss| - 1]);
      ForwardStepTrans(e, st, t, VisitStmts(e, st, ss));
    }
  }

  lemma {:induction false} ForwardDirectHandlers(e: Env, st: VState, hs: seq<Handler>)
    requires e.direction == Forward
    ensures ForwardStep(e, st, VisitHandlers(e, st, hs))
    decreases hs
  {
    if hs != [] {
      var h := hs[|hs| - 1];
      var t := VisitHandlers(e, st, hs[..|hs| - 1]);
      var t1 := if h.typ.Some? then VisitExpr(e, t, h.typ.value) else t;
      ForwardDirectHandlers(e, st, hs[..|hs| - 1]);
      if h.typ.Some? {
        ForwardDirectExpr(e, t, h.typ.value);
      }
      ForwardDirectStmts(e, t1, h.body);
      ForwardStepTrans(e, st, t, t1);
      ForwardStepTrans(e, st, t1, VisitHandlers(e, st, hs));
    }
  }

  lemma {:induction false} ForwardDirectParts(e: Env, st: VState, ps: seq<Part>)
    requires e.direction == Forward
    ensures ForwardStep(e, st, VisitParts(e, st, ps))
    ensures VisitParts(e, st, ps).started <==> st.started || ReachesParts(ps, e.targetLine)
    decreases ps
  {
    VisitPartsStarts(e, st, ps);
    if ps != [] {
      var t := VisitParts(e, st, ps[..|ps| - 1]);
      ForwardDirectParts(e, st, ps[..|ps| - 1]);
      ForwardDirectPart(e, t, ps[|ps| - 1]);
      ForwardStepTrans(e, st, t, VisitParts(e, st, ps));
    }
  }

  lemma {:induction false} ForwardDirectPart(e: Env, st: VState, p: Part)
    requires e.direction == Forward
    ensures ForwardStep(e, st, VisitPart(e, st, p))
    ensures VisitPart(e, st, p).started <==> st.started || ReachesPart(p, e.targetLine)
    decreases p
  {
    VisitPartStarts(e, st, p);
    match p
    case E(x) => ForwardDirectExpr(e, st, x);
    case B(block) => ForwardDirectStmts(e, st, block);
    case N(fields) => ForwardDirectParts(e, st, fields);
  }

  /** Without a resolver a forward visitor follows no call: every node it appends
      is a line of the visited file in the function that holds the criterion. */
  lemma ForwardWithoutResolver(e: Env, st: VState, ss: seq<Stmt>)
    requires e.direction == Forward && !e.hasResolver
    ensures var r := VisitStmts(e, st, ss);
      forall i :: |st.nodes| <= i < |r.nodes| ==>
        r.nodes[i].file == e.currentFile && Some(r.nodes[i].func) == r.targetFunction
  {
    ForwardDirectStmts(e, st, ss);
  }

  // ---------------------------------------------------------------------------
  // backward slicing reports nothing below the criterion

  /** A line of the visited file at or above the criterion line, or a `parameter`
      node of a definition there, or a node of a function a call was followed into. */
  predicate AboveNode(e: Env, n: SliceNode) {
    || (n.file == e.currentFile && (n.operation == "parameter" || n.line <= e.targetLine))
    || (n.file, n.func) in CalleeSites(e)
  }

  /** Every node appended since `st` is an `AboveNode`. */
  predicate AboveSince(e: Env, st: VState, r: VState) {
    && st.nodes <= r.nodes
    && forall i :: |st.nodes| <= i < |r.nodes| ==> AboveNode(e, r.nodes[i])
  }

  lemma AboveTrans(e: Env, a: VState, b: VState, c: VState)
    requires AboveSince(e, a, b) && AboveSince(e, b, c)
    ensures AboveSince(e, a, c)
  {
    forall i | |a.nodes| <= i < |b.nodes|
      ensures AboveNode(e, c.nodes[i])
    {
      assert c.nodes[i] == b.nodes[i];
    }
  }

  lemma {:induction false} ParamNodesAbove(e: Env, st: VState, s: Stmt, k: nat)
    requires s.FunctionDef? && k <= |s.params|
    ensures AboveSince(e, st, ParamNodes(e, st, s, k))
  {
    if k > 0 {
      ParamNodesAbove(e, st, s, k - 1);
    }
  }

  /** The backward loop of `visit_Assign` runs only at or above the criterion
      line; what a followed call adds is labelled with a callee site. */
  lemma {:induction false} AssignBackwardAbove(e: Env, st: VState, s: Stmt, k: nat)
    requires s.Assign? && k <= |s.targets| && s.line <= e.targetLine
    ensures AboveSince(e, st, AssignBackward(e, st, s, k))
  {
    if k > 0 {
      AssignBackwardAbove(e, st, s, k - 1);
      var t := AssignBackward(e, st, s, k - 1);
      BackwardTargetAbove(e, t, s, s.targets[k - 1]);
      AboveTrans(e, st, t, AssignBackward(e, st, s, k));
    }
  }

  /** One target of that loop, at or above the criterion line. */
  lemma BackwardTargetAbove(e: Env, t: VState, s: Stmt, target: Expr)
    requires s.Assign? && s.line <= e.targetLine
    ensures AboveSince(e, t, BackwardTarget(e, t, s, target))
  {
    if target.Name? && target.id in t.relevant {
      var t1 := t.(nodes := t.nodes + [Direct(e, t, s.line, target.id, "assignment",
                                              e.listing(FilterMostSpecific(Names(s.value))), None)]);
      var r := BackwardTarget(e, t, s, target);
      if s.value.Call? && s.value.func.Name? && NamesAll(s.value.args) != {} {
        var added := CrossFileCall(e, s.value, NamesAll(s.value.args));
        CallSites(e, s.value, NamesAll(s.value.args));
        assert r.nodes == t1.nodes + added;
        forall i | |t.nodes| <= i < |r.nodes|
          ensures AboveNode(e, r.nodes[i])
        {
          if i >= |t1.nodes| {
            assert r.nodes[i] == added[i - |t1.nodes|];
          }
        }
      }
    }
  }

  lemma OwnAbove(e: Env, st: VState, s: Stmt)
    requires e.direction == Backward
    ensures s.Assign? ==> AboveSince(e, st, AssignOwn(e, st, s))
    ensures s.ExprStmt? ==> AboveSince(e, st, ExprStmtOwn(e, st, s))
    ensures s.For? ==> AboveSince(e, st, ForOwn(e, st, s))
  {
    if s.Assign? && s.line <= e.targetLine {
      AssignBackwardAbove(e, st, s, |s.targets|);
    }
  }

  /** One target of `visit_Assign`'s backward loop: a relevant name reports the
      assignment with the most specific right-hand names as its dependencies,
      while every right-hand name becomes relevant; any other target changes
      nothing. */
  lemma BackwardTargetReports(e: Env, t: VState, s: Stmt, target: Expr)
    requires s.Assign?
    ensures !(target.Name? && target.id in t.relevant) ==> BackwardTarget(e, t, s, target) == t
    ensures target.Name? && target.id in t.relevant ==>
      var r := BackwardTarget(e, t, s, target);
      && |t.nodes| < |r.nodes|
      && r.nodes[|t.nodes|] == Direct(e, t, s.line, target.id, "assignment",
                                      e.listing(FilterMostSpecific(Names(s.value))), None)
      && r.relevant == t.relevant + Names(s.value)
  {
  }

  /** `x = value`, visited backward: at or above the criterion line a relevant
      `x` is reported with the most specific names of `value` and makes all of
      them relevant; below the line nothing happens. */
  lemma BackwardAssignReports(e: Env, st: VState, x: Ident, value: Expr, line: Line)
    requires e.direction == Backward && x in st.relevant
    ensures var r := VisitStmt(e, st, Assign([Name(x)], value, line));
      line > e.targetLine ==> r == st
    ensures var r := VisitStmt(e, st, Assign([Name(x)], value, line));
      line <= e.targetLine ==>
        && |st.nodes| < |r.nodes|
        && r.nodes[|st.nodes|] == Direct(e, st, line, x, "assignment", e.listing(FilterMostSpecific(Names(value))), None)
        && r.relevant == st.relevant + Names(value)
  {
    var s := Assign([Name(x)], value, line);
    var s1 := AssignOwn(e, st, s);
    ExprsInert(e, s1, [Name(x)]);
    ExprInert(e, s1, value);
    if line <= e.targetLine {
      assert AssignBackward(e, st, s, 0) == st;
      assert s1 == BackwardTarget(e, st, s, Name(x));
      BackwardTargetReports(e, st, s, Name(x));
    }
  }

  /** `x = a.b`: the node depends on `a.b` alone, but both `a.b` and `a` become
      relevant. */
  lemma BackwardDottedDependencies(e: Env, st: VState, x: Ident, a: Ident, b: Ident, line: Line)
    requires e.direction == Backward && x in st.relevant && line <= e.targetLine
    ensures var r := VisitStmt(e, st, Assign([Name(x)], Attribute(Name(a), b), line));
      && |st.nodes| < |r.nodes|
      && r.nodes[|st.nodes|].dependencies == e.listing({a + "." + b})
      && r.relevant == st.relevant + {a + "." + b, a}
  {
    var value := Attribute(Name(a), b);
    BackwardAssignReports(e, st, x, value, line);
    NamesOfPair(a, b);
    FilterChain(value);
    assert FullAttrPath(value) == a + "." + b;
  }

  /** A backward visitor reports only lines of the visited file at or above the
      criterion line, apart from the parameters of the functions it passes
      through and the nodes of the functions it follows calls into. */
  lemma {:induction false} BackwardAboveStmt(e: Env, st: VState, s: Stmt)
    requires e.direction == Backward
    ensures AboveSince(e, st, VisitStmt(e, st, s))
    decreases s, 1
  {
    match s
    case FunctionDef(name, params, argExprs, body, tail, _) =>
      var s1 := st.(functionStack := st.functionStack + [name], currentFunction := name);
      var s2 := ParamNodes(e, s1, s, |params|);
      ParamNodesAbove(e, s1, s, |params|);
      ExprsInert(e, s2, argExprs);
      BackwardAboveStmts(e, s2, body);
      ExprsInert(e, VisitStmts(e, s2, body), tail);
    case ClassDef(_, bases, body, decorators, _) =>
      ExprsInert(e, st, bases);
      BackwardAboveStmts(e, st, body);
      ExprsInert(e, VisitStmts(e, st, body), decorators);
    case Assign(targets, value, _) =>
      OwnAbove(e, st, s);
      ExprsInert(e, AssignOwn(e, st, s), targets);
      ExprInert(e, AssignOwn(e, st, s), value);
    case ExprStmt(value, _) =>
      OwnAbove(e, st, s);
      ExprInert(e, ExprStmtOwn(e, st, s), value);
    case For(target, iter, body, orelse, _) =>
      var s1 := ForOwn(e, st, s);
      OwnAbove(e, st, s);
      ExprInert(e, s1, target);
      ExprInert(e, s1, iter);
      BackwardAboveStmts(e, s1, body);
      BackwardAboveStmts(e, VisitStmts(e, s1, body), orelse);
      AboveTrans(e, st, s1, VisitStmts(e, s1, body));
      AboveTrans(e, st, VisitStmts(e, s1, body), VisitStmt(e, st, s));
    case While(test, body, orelse, _) =>
      ExprInert(e, st, test);
      BackwardAboveStmts(e, st, body);
      BackwardAboveStmts(e, VisitStmts(e, st, body), orelse);
      AboveTrans(e, st, VisitStmts(e, st, body), VisitStmt(e, st, s));
    case If(test, body, orelse, _) =>
      ExprInert(e, st, test);
      BackwardAboveStmts(e, st, body);
      BackwardAboveStmts(e, VisitStmts(e, st, body), orelse);
      AboveTrans(e, st, VisitStmts(e, st, body), VisitStmt(e, st, s));
    case With(items, body, _) =>
      ItemsInert(e, st, items);
      BackwardAboveStmts(e, st, body);
    case Try(body, handlers, orelse, finalbody, _) =>
      var s1 := VisitStmts(e, st, body);
      var s2 := VisitHandlers(e, s1, handlers);
      var s3 := VisitStmts(e, s2, orelse);
      BackwardAboveStmts(e, st, body);
      BackwardAboveHandlers(e, s1, handlers);
      BackwardAboveStmts(e, s2, orelse);
      BackwardAboveStmts(e, s3, finalbody);
      AboveTrans(e, st, s1, s2);
      AboveTrans(e, st, s2, s3);
      AboveTrans(e, st, s3, VisitStmt(e, st, s));
    case Return(result, _) =>
      if result.Some? {
        ExprInert(e, st, result.value);
      }
    case Import(_, _) =>
    case ImportFrom(_, _, _) =>
    case Simple(parts, _) => BackwardAboveParts(e, st, parts);
  }

  lemma {:induction false} BackwardAboveStmts(e: Env, st: VState, ss: seq<Stmt>)
    requires e.direction == Backward
    ensures AboveSince(e, st, VisitStmts(e, st, ss))
    decreases ss
  {
    if ss != [] {
      var t := VisitStmts(e, st, ss[..|ss| - 1]);
      BackwardAboveStmts(e, st, ss[..|ss| - 1]);
      BackwardAboveStmt(e, t, ss[|ss| - 1]);
      AboveTrans(e, st, t, VisitStmts(e, st, ss));
    }
  }

  lemma {:induction false} BackwardAboveHandlers(e: Env, st: VState, hs: seq<Handler>)
    requires e.direction == Backward
    ensures AboveSince(e, st, VisitHandlers(e, st, hs))
    decreases hs
  {
    if hs != [] {
      var h := hs[|hs| - 1];
      var t := VisitHandlers(e, st, hs[..|hs| - 1]);
      BackwardAboveHandlers(e, st, hs[..|hs| - 1]);
      if h.typ.Some? {
        ExprInert(e, t, h.typ.value);
      }
      BackwardAboveStmts(e, t, h.body);
      AboveTrans(e, st, t, VisitHandlers(e, st, hs));
    }
  }

  lemma {:induction false} BackwardAboveParts(e: Env, st: VState, ps: seq<Part>)
    requires e.direction == Backward
    ensures AboveSince(e, st, VisitParts(e, st, ps))
    decreases ps
  {
    if ps != [] {
      var t := VisitParts(e, st, ps[..|ps| - 1]);
      BackwardAboveParts(e, st, ps[..|ps| - 1]);
      BackwardAbovePart(e, t, ps[|ps| - 1]);
      AboveTrans(e, st, t, VisitParts(e, st, ps));
    }
  }

  lemma {:induction false} BackwardAbovePart(e: Env, st: VState, p: Part)
    requires e.direction == Backward
    ensures AboveSince(e, st, VisitPart(e, st, p))
    decreases p
  {
    match p
    case E(x) => ExprInert(e, st, x);
    case B(block) => BackwardAboveStmts(e, st, block);
    case N(fields) => BackwardAboveParts(e, st, fields);
  }

  /** With no imports and no functions of its own file to enter, a backward
      visitor follows no call, so every node it appends is a line of the visited
      file at or above the criterion line, or a `parameter` node. */
  lemma BackwardWithoutCallees(e: Env, st: VState, ss: seq<Stmt>)
    requires e.direction == Backward && e.imports == map[] && e.functionDefs == map[]
    ensures var r := VisitStmts(e, st, ss);
      forall i :: |st.nodes| <= i < |r.nodes| ==>
        r.nodes[i].file == e.currentFile && (r.nodes[i].operation == "parameter" || r.nodes[i].line <= e.targetLine)
  {
    BackwardAboveStmts(e, st, ss);
    assert CalleeSites(e) == {};
  }
}
