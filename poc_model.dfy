/** The proof-of-concept slicer of `flowslice_poc.py` as a function of its state:
    what `EnhancedSlicer` does to its nodes, its tracked sets, its function stack
    and its start flag, and what `slice_variable` returns. It is a simpler
    relative of the engine's visitor: it collects plain names only, follows no
    call, reports backward facts at any line, reports forward facts in every
    function once started, and labels its nodes with a placeholder file that
    `slice_variable` overwrites. The class in `Prototype` is proved to compute
    exactly these functions. */
module PrototypeModel {
  import opened Wrappers
  import opened Strings
  import opened Sorting
  import opened PyAst
  import opened NameAnalysis
  import opened Models
  import opened ImportResolution
  import opened Tracking
  import opened Slicing

  // ---------------------------------------------------------------------------
  // the names of an expression

  /** `_get_names_from_expr`: the identifier of every `Name` node anywhere in the
      expression, the root of an attribute chain and comprehension targets included. */
  function PlainNames(x: Expr): (r: set<string>)
    ensures forall n :: n in r ==> n != "" && '.' !in n
    decreases x
  {
    match x
    case Name(id) => {id}
    case Attribute(v, _) => PlainNames(v)
    case Call(f, args, keywords, _) => PlainNames(f) + PlainNamesAll(args) + PlainNamesAll(keywords)
    case Comp(_, elts, generators) => PlainNamesAll(elts) + GeneratorNames(generators)
    case Other(children) => PlainNamesAll(children)
  }

  function PlainNamesAll(xs: seq<Expr>): (r: set<string>)
    ensures forall n :: n in r ==> n != "" && '.' !in n
    decreases xs
  {
    if xs == [] then {} else PlainNames(xs[0]) + PlainNamesAll(xs[1..])
  }

  function GeneratorNames(gs: seq<Comprehension>): (r: set<string>)
    ensures forall n :: n in r ==> n != "" && '.' !in n
    decreases gs
  {
    if gs == [] then {}
    else PlainNames(gs[0].target) + PlainNames(gs[0].iter) + PlainNamesAll(gs[0].ifs) + GeneratorNames(gs[1..])
  }

  lemma {:induction false} PlainNamesAllSnoc(xs: seq<Expr>, x: Expr)
    ensures PlainNamesAll(xs + [x]) == PlainNamesAll(xs) + PlainNames(x)
    decreases |xs|
  {
    if xs == [] {
      assert [x][1..] == [];
    } else {
      assert (xs + [x])[1..] == xs[1..] + [x];
      PlainNamesAllSnoc(xs[1..], x);
    }
  }

  lemma {:induction false} GeneratorNamesSnoc(gs: seq<Comprehension>, g: Comprehension)
    ensures GeneratorNames(gs + [g]) == GeneratorNames(gs) + PlainNames(g.target) + PlainNames(g.iter) + PlainNamesAll(g.ifs)
    decreases |gs|
  {
    if gs == [] {
      assert [g][1..] == [];
    } else {
      assert (gs + [g])[1..] == gs[1..] + [g];
      GeneratorNamesSnoc(gs[1..], g);
    }
  }

  /** An attribute chain `a.b.c` contributes only its root `a`. */
  lemma {:induction false} PlainNamesOfChain(x: Expr)
    requires ChainParts(x) != []
    ensures PlainNames(x) == {BaseName(x)}
    decreases x
  {
    match x
    case Name(_) =>
    case Attribute(v, _) => PlainNamesOfChain(v);
    case _ =>
  }

  /** A join of two or more parts holds the separator. */
  lemma JoinLongHasDot(ps: seq<string>)
    requires |ps| >= 2
    ensures '.' in JoinWith(ps, '.')
  {
    assert JoinWith(ps, '.') == ps[0] + ['.'] + JoinWith(ps[1..], '.');
    assert JoinWith(ps, '.')[|ps[0]|] == '.';
  }

  /** Among the joined leading runs of a chain, only the root has no dot. */
  lemma PrefixesUndotted(parts: seq<string>)
    requires |parts| >= 1
    ensures forall n :: n in Prefixes(parts) && '.' !in n ==> n == parts[0]
  {
    forall n | n in Prefixes(parts) && '.' !in n
      ensures n == parts[0]
    {
      var i :| 1 <= i <= |parts| && n == JoinWith(parts[..i], '.');
      if i > 1 {
        JoinLongHasDot(parts[..i]);
      } else {
        assert parts[..i] == [parts[0]];
      }
    }
  }

  /** Every name without a dot that the engine's collector finds, the prototype's
      collector finds too: the two differ only in the dotted paths the engine adds
      and the comprehension targets, element expressions and conditions the
      prototype adds. */
  lemma {:induction false} UndottedCollected(x: Expr)
    ensures forall n :: n in Names(x) && '.' !in n ==> n in PlainNames(x)
    decreases x
  {
    match x
    case Name(_) =>
    case Attribute(v, _) =>
      UndottedCollected(v);
      if ChainParts(x) != [] {
        NamesOfChain(x);
        PlainNamesOfChain(x);
        PrefixesUndotted(ChainParts(x));
      }
    case Call(f, args, keywords, _) =>
      UndottedCollected(f);
      UndottedCollectedAll(args);
      UndottedCollectedAll(keywords);
    case Comp(_, _, generators) => UndottedIters(generators);
    case Other(children) => UndottedCollectedAll(children);
  }

  lemma {:induction false} UndottedCollectedAll(xs: seq<Expr>)
    ensures forall n :: n in NamesAll(xs) && '.' !in n ==> n in PlainNamesAll(xs)
    decreases xs
  {
    if xs != [] {
      UndottedCollected(xs[0]);
      UndottedCollectedAll(xs[1..]);
    }
  }

  lemma {:induction false} UndottedIters(gs: seq<Comprehension>)
    ensures forall n :: n in IterNames(gs) && '.' !in n ==> n in GeneratorNames(gs)
    decreases gs
  {
    if gs != [] {
      UndottedCollected(gs[0].iter);
      UndottedIters(gs[1..]);
    }
  }

  /** The prototype's collector also sees a comprehension's loop variable and
      element, which the engine's collector leaves out. */
  lemma ComprehensionNames(x: Ident, y: Ident, z: Ident)
    ensures PlainNames(Comp(ListComp, [Name(x)], [Comprehension(Name(y), Name(z), [])])) == {x, y, z}
    ensures Names(Comp(ListComp, [Name(x)], [Comprehension(Name(y), Name(z), [])])) == {z}
  {
    var c := Comprehension(Name(y), Name(z), []);
    assert [c][1..] == [];
    assert [Name(x)][1..] == [];
    assert PlainNamesAll([Name(x)]) == {x};
    assert GeneratorNames([c]) == {y, z};
    assert IterNames([c]) == {z};
  }

  // ---------------------------------------------------------------------------
  // the slicer's state

  /** The file every node is labelled with until `slice_variable` relabels it. */
  const Placeholder := "<current>"

  /** What a slicer is given and never changes. The direction is the string it was
      constructed with; anything other than "backward" behaves as forward. */
  datatype PEnv = PEnv(
    targetVar: string,
    targetLine: int,
    direction: string,
    sourceLines: seq<string>,
    listing: Listing)

  predicate Backward(e: PEnv) {
    e.direction == "backward"
  }

  /** What a slicer changes as it goes. */
  datatype PState = PState(
    nodes: seq<SliceNode>,
    currentFunction: string,
    functionStack: seq<string>,
    started: bool,
    relevant: set<string>,
    affected: set<string>)

  /** The state of a fresh slicer. */
  function InitialState(targetVar: string, direction: string): (st: PState)
    ensures st.nodes == [] && st.functionStack == ["<module>"] && st.currentFunction == "<module>" && !st.started
    ensures direction == "backward" ==> st.relevant == {targetVar} && st.affected == {}
    ensures direction != "backward" ==> st.affected == {targetVar} && st.relevant == {}
  {
    PState([], "<module>", ["<module>"], false,
           if direction == "backward" then {targetVar} else {},
           if direction == "backward" then {} else {targetVar})
  }

  /** A node for the statement at `line`, in the current function. */
  function Direct(e: PEnv, st: PState, line: Line, variable: string, operation: string,
                  deps: seq<string>, context: Option<string>): SliceNode {
    SliceNode(Placeholder, line, st.currentFunction, CodeAt(e.sourceLines, line), variable, operation, deps, context)
  }

  /** Only the nodes changed, by appending. */
  predicate OnlyNodes(st: PState, r: PState) {
    r == st.(nodes := r.nodes) && st.nodes <= r.nodes
  }

  /** Every node so far carries the placeholder file. */
  predicate AllPlaced(st: PState) {
    forall n :: n in st.nodes ==> n.file == Placeholder
  }

  /** A forward slicer that has not started. */
  predicate Waiting(e: PEnv, st: PState) {
    !Backward(e) && !st.started
  }

  /** What visiting an expression keeps: only nodes are appended, each with the
      placeholder file, and a forward slicer that has not started appends none. */
  predicate ExprKeeps(e: PEnv, st: PState, r: PState) {
    OnlyNodes(st, r) && (AllPlaced(st) ==> AllPlaced(r)) && (Waiting(e, st) ==> r == st)
  }

  // ---------------------------------------------------------------------------
  // what each visit method does before its generic visit

  /** `visit_FunctionDef`, backward: a `parameter` node for each relevant parameter. */
  function ParamNodes(e: PEnv, st: PState, s: Stmt, k: nat): (r: PState)
    requires s.FunctionDef? && k <= |s.params|
    ensures r == st.(nodes := r.nodes) && st.nodes <= r.nodes
    ensures AllPlaced(st) ==> AllPlaced(r)
  {
    if k == 0 then st
    else
      var t := ParamNodes(e, st, s, k - 1);
      var p := s.params[k - 1];
      if p in t.relevant then
        t.(nodes := t.nodes + [SliceNode(Placeholder, s.line, t.currentFunction,
                                         "def " + s.name + "(..., " + p + ", ...)", p, "parameter", [], None)])
      else t
  }

  /** The backward loop of `visit_Assign` over the first `k` targets: every plain
      target that is relevant gives a node, and makes the right-hand names relevant. */
  function AssignBackward(e: PEnv, st: PState, s: Stmt, k: nat): (r: PState)
    requires s.Assign? && k <= |s.targets|
    ensures r == st.(nodes := r.nodes, relevant := r.relevant)
    ensures st.nodes <= r.nodes && st.relevant <= r.relevant
    ensures AllPlaced(st) ==> AllPlaced(r)
  {
    if k == 0 then st
    else
      var t := AssignBackward(e, st, s, k - 1);
      var target := s.targets[k - 1];
      if target.Name? && target.id in t.relevant then
        var rhs := PlainNames(s.value);
        t.(nodes := t.nodes + [Direct(e, t, s.line, target.id, "assignment", e.listing(rhs), None)],
           relevant := t.relevant + rhs)
      else t
  }

  /** The forward loop of `visit_Assign` over the first `k` targets: every plain
      target gives a node and becomes affected. */
  function AssignForward(e: PEnv, st: PState, s: Stmt, k: nat): (r: PState)
    requires s.Assign? && k <= |s.targets|
    ensures r == st.(nodes := r.nodes, affected := r.affected)
    ensures st.nodes <= r.nodes && st.affected <= r.affected
    ensures AllPlaced(st) ==> AllPlaced(r)
  {
    if k == 0 then st
    else
      var t := AssignForward(e, st, s, k - 1);
      var target := s.targets[k - 1];
      if target.Name? then
        t.(nodes := t.nodes + [Direct(e, t, s.line, target.id, "assignment",
                                      e.listing(PlainNames(s.value) * t.affected), None)],
           affected := t.affected + {target.id})
      else t
  }

  /** `visit_Assign` before its generic visit. A forward slicer starts at the
      first assignment at or below the criterion line. */
  function AssignOwn(e: PEnv, st: PState, s: Stmt): PState
    requires s.Assign?
  {
    if Backward(e) then AssignBackward(e, st, s, |s.targets|)
    else
      var s1 := if !st.started && s.line >= e.targetLine then st.(started := true) else st;
      if s1.started && PlainNames(s.value) * s1.affected != {} then AssignForward(e, s1, s, |s.targets|) else s1
  }

  /** `visit_Expr` before its generic visit: a method call on a tracked object. */
  function ExprStmtOwn(e: PEnv, st: PState, s: Stmt): (r: PState)
    requires s.ExprStmt?
    ensures r == st.(nodes := r.nodes, relevant := r.relevant)
  {
    if s.value.Call? && s.value.func.Attribute? then
      var obj := BaseName(s.value.func.value);
      var operation := "." + s.value.func.attr + "()";
      if Backward(e) then
        if obj in st.relevant then
          var allArgs := PlainNamesAll(s.value.args);
          st.(nodes := st.nodes + [Direct(e, st, s.line, obj, operation, e.listing(allArgs), None)],
              relevant := st.relevant + allArgs)
        else st
      else if st.started && obj in st.affected then
        st.(nodes := st.nodes + [Direct(e, st, s.line, obj, operation, [], None)])
      else st
    else st
  }

  /** `visit_For` before its generic visit. */
  function ForOwn(e: PEnv, st: PState, s: Stmt): (r: PState)
    requires s.For?
    ensures r == st.(nodes := r.nodes, relevant := r.relevant, affected := r.affected)
  {
    if Backward(e) then
      if s.target.Name? && s.target.id in st.relevant then
        var iterVars := PlainNames(s.iter);
        st.(nodes := st.nodes + [Direct(e, st, s.line, s.target.id, "for loop", e.listing(iterVars),
                                        Some("iterates over " + SetRepr(e.listing, iterVars)))],
            relevant := st.relevant + iterVars)
      else st
    else if st.started then
      var inter := PlainNames(s.iter) * st.affected;
      if inter != {} && s.target.Name? then
        st.(nodes := st.nodes + [Direct(e, st, s.line, s.target.id, "for loop", e.listing(inter),
                                        Some("iterates over " + SetRepr(e.listing, inter)))],
            affected := st.affected + {s.target.id})
      else st
    else st
  }

  /** The names `visit_Call` checks arguments against. */
  function CheckSet(e: PEnv, st: PState): set<string> {
    if Backward(e) then st.relevant else if st.started then st.affected else {}
  }

  /** The loop of `visit_Call` over the first `k` arguments: a `passed to f()` node
      for each argument that mentions a checked name. */
  function CallArgs(e: PEnv, st: PState, x: Expr, k: nat): (r: PState)
    requires x.Call? && k <= |x.args|
    ensures OnlyNodes(st, r)
    ensures AllPlaced(st) ==> AllPlaced(r)
  {
    if k == 0 then st
    else
      var t := CallArgs(e, st, x, k - 1);
      var inter := PlainNames(x.args[k - 1]) * CheckSet(e, t);
      if inter != {} then
        t.(nodes := t.nodes + [Direct(e, t, x.line, Pick(e.listing, inter),
                                      "passed to " + FuncName(x.func) + "()", e.listing(inter), None)])
      else t
  }

  /** `visit_Call` before its generic visit: a backward slicer, or a forward one
      that has started, reports calls. */
  function CallOwn(e: PEnv, st: PState, x: Expr): (r: PState)
    requires x.Call?
    ensures ExprKeeps(e, st, r)
  {
    if st.started || Backward(e) then CallArgs(e, st, x, |x.args|) else st
  }

  // ---------------------------------------------------------------------------
  // visiting expressions

  function VisitExpr(e: PEnv, st: PState, x: Expr): (r: PState)
    ensures ExprKeeps(e, st, r)
    decreases x
  {
    match x
    case Name(_) => st
    case Attribute(v, _) => VisitExpr(e, st, v)
    case Call(f, args, keywords, _) =>
      VisitExprs(e, VisitExprs(e, VisitExpr(e, CallOwn(e, st, x), f), args), keywords)
    case Comp(_, elts, generators) => VisitComprehensions(e, VisitExprs(e, st, elts), generators)
    case Other(children) => VisitExprs(e, st, children)
  }

  function VisitExprs(e: PEnv, st: PState, xs: seq<Expr>): (r: PState)
    ensures ExprKeeps(e, st, r)
    decreases xs
  {
    if xs == [] then st else VisitExpr(e, VisitExprs(e, st, xs[..|xs| - 1]), xs[|xs| - 1])
  }

  function VisitComprehensions(e: PEnv, st: PState, gs: seq<Comprehension>): (r: PState)
    ensures ExprKeeps(e, st, r)
    decreases gs
  {
    if gs == [] then st
    else
      var g := gs[|gs| - 1];
      VisitExprs(e, VisitExpr(e, VisitExpr(e, VisitComprehensions(e, st, gs[..|gs| - 1]), g.target), g.iter), g.ifs)
  }

  function VisitItems(e: PEnv, st: PState, items: seq<WithItem>): (r: PState)
    ensures ExprKeeps(e, st, r)
    decreases |items|
  {
    if items == [] then st
    else
      var item := items[|items| - 1];
      var t := VisitExpr(e, VisitItems(e, st, items[..|items| - 1]), item.context);
      if item.vars.Some? then VisitExpr(e, t, item.vars.value) else t
  }

  // ---------------------------------------------------------------------------
  // visiting statements

  /** `visit_FunctionDef`: push the function, report its relevant parameters when
      slicing backward, visit the definition's fields (annotations and defaults,
      body, decorators, return annotation), pop, and return to the enclosing
      function. */
  function VisitFunctionDef(e: PEnv, st: PState, s: Stmt): (r: PState)
    requires s.FunctionDef?
    ensures r.functionStack == st.functionStack
    decreases s, 0
  {
    var s1 := st.(functionStack := st.functionStack + [s.name], currentFunction := s.name);
    var s2 := if Backward(e) then ParamNodes(e, s1, s, |s.params|) else s1;
    var s3 := VisitExprs(e, VisitStmts(e, VisitExprs(e, s2, s.argExprs), s.body), s.tail);
    var stack := s3.functionStack[..|s3.functionStack| - 1];
    s3.(functionStack := stack, currentFunction := if stack != [] then stack[|stack| - 1] else "<module>")
  }

  function VisitStmt(e: PEnv, st: PState, s: Stmt): (r: PState)
    ensures r.functionStack == st.functionStack
    decreases s, 1
  {
    match s
    case FunctionDef(_, _, _, _, _, _) => VisitFunctionDef(e, st, s)
    case ClassDef(_, bases, body, decorators, _) =>
      VisitExprs(e, VisitStmts(e, VisitExprs(e, st, bases), body), decorators)
    case Assign(targets, value, _) => VisitExpr(e, VisitExprs(e, AssignOwn(e, st, s), targets), value)
    case ExprStmt(value, _) => VisitExpr(e, ExprStmtOwn(e, st, s), value)
    case For(target, iter, body, orelse, _) =>
      VisitStmts(e, VisitStmts(e, VisitExpr(e, VisitExpr(e, ForOwn(e, st, s), target), iter), body), orelse)
    case While(test, body, orelse, _) => VisitStmts(e, VisitStmts(e, VisitExpr(e, st, test), body), orelse)
    case If(test, body, orelse, _) => VisitStmts(e, VisitStmts(e, VisitExpr(e, st, test), body), orelse)
    case With(items, body, _) => VisitStmts(e, VisitItems(e, st, items), body)
    case Try(body, handlers, orelse, finalbody, _) =>
      VisitStmts(e, VisitStmts(e, VisitHandlers(e, VisitStmts(e, st, body), handlers), orelse), finalbody)
    case Return(result, _) => if result.Some? then VisitExpr(e, st, result.value) else st
    case Import(_, _) => st
    case ImportFrom(_, _, _) => st
    case Simple(parts, _) => VisitParts(e, st, parts)
  }

  function VisitStmts(e: PEnv, st: PState, ss: seq<Stmt>): (r: PState)
    ensures r.functionStack == st.functionStack
    decreases ss
  {
    if ss == [] then st else VisitStmt(e, VisitStmts(e, st, ss[..|ss| - 1]), ss[|ss| - 1])
  }

  function VisitHandlers(e: PEnv, st: PState, hs: seq<Handler>): (r: PState)
    ensures r.functionStack == st.functionStack
    decreases hs
  {
    if hs == [] then st
    else
      var h := hs[|hs| - 1];
      var t := VisitHandlers(e, st, hs[..|hs| - 1]);
      VisitStmts(e, if h.typ.Some? then VisitExpr(e, t, h.typ.value) else t, h.body)
  }

  /** The generic visit of a statement of another kind: its fields in order. */
  function VisitParts(e: PEnv, st: PState, ps: seq<Part>): (r: PState)
    ensures r.functionStack == st.functionStack
    decreases ps
  {
    if ps == [] then st else VisitPart(e, VisitParts(e, st, ps[..|ps| - 1]), ps[|ps| - 1])
  }

  function VisitPart(e: PEnv, st: PState, p: Part): (r: PState)
    ensures r.functionStack == st.functionStack
    decreases p
  {
    match p
    case E(x) => VisitExpr(e, st, x)
    case B(block) => VisitStmts(e, st, block)
    case N(fields) => VisitParts(e, st, fields)
  }

  /** `slicer.visit(tree)` from a fresh slicer. */
  function Run(e: PEnv, tree: Module): seq<SliceNode> {
    VisitStmts(e, InitialState(e.targetVar, e.direction), tree.body).nodes
  }

  // ---------------------------------------------------------------------------
  // what a visit keeps

  /** What any visit keeps: nodes are only appended, each with the placeholder
      file; tracked names are only added; a started slicer stays started; and a
      forward slicer that is still waiting has appended nothing. */
  predicate Keeps(e: PEnv, st: PState, r: PState) {
    && st.nodes <= r.nodes && st.relevant <= r.relevant && st.affected <= r.affected
    && (st.started ==> r.started)
    && (AllPlaced(st) ==> AllPlaced(r))
    && (!Backward(e) && !r.started ==> r.nodes == st.nodes)
  }

  /** The current function is the top of the function stack. */
  predicate Framed(st: PState) {
    st.functionStack != [] && st.currentFunction == st.functionStack[|st.functionStack| - 1]
  }

  lemma KeepsTrans(e: PEnv, a: PState, b: PState, c: PState)
    requires Keeps(e, a, b) && Keeps(e, b, c)
    ensures Keeps(e, a, c)
  {
  }

  lemma OwnKeeps(e: PEnv, st: PState, s: Stmt)
    ensures s.Assign? ==> Keeps(e, st, AssignOwn(e, st, s))
    ensures s.Assign? ==> (AssignOwn(e, st, s).started <==> st.started || (!Backward(e) && s.line >= e.targetLine))
    ensures s.ExprStmt? ==> Keeps(e, st, ExprStmtOwn(e, st, s))
    ensures s.For? ==> Keeps(e, st, ForOwn(e, st, s))
  {
  }

  /** Visiting a statement keeps everything `Keeps` promises, returns to the
      function it started in (`visit_FunctionDef` pops what it pushed), and only
      starts a forward slicer when the statement holds an assignment at or below
      the criterion line. */
  lemma {:induction false} VisitStmtKeeps(e: PEnv, st: PState, s: Stmt)
    ensures Keeps(e, st, VisitStmt(e, st, s))
    ensures Framed(st) ==> VisitStmt(e, st, s).currentFunction == st.currentFunction
    ensures VisitStmt(e, st, s).started ==> st.started || Reaches(s, e.targetLine)
    decreases s, 1
  {
    match s
    case FunctionDef(_, _, _, _, _, _) => FunctionDefKeeps(e, st, s);
    case ClassDef(_, bases, body, decorators, _) =>
      var s1 := VisitExprs(e, st, bases);
      VisitStmtsKeeps(e, s1, body);
      KeepsTrans(e, st, s1, VisitStmts(e, s1, body));
      KeepsTrans(e, st, VisitStmts(e, s1, body), VisitStmt(e, st, s));
    case Assign(targets, _, _) =>
      OwnKeeps(e, st, s);
      var s1 := AssignOwn(e, st, s);
      KeepsTrans(e, st, s1, VisitExprs(e, s1, targets));
      KeepsTrans(e, st, VisitExprs(e, s1, targets), VisitStmt(e, st, s));
    case ExprStmt(_, _) =>
      OwnKeeps(e, st, s);
    case For(_, _, _, _, _) => ForKeeps(e, st, s);
    case While(_, _, _, _) => WhileKeeps(e, st, s);
    case If(_, _, _, _) => IfKeeps(e, st, s);
    case With(items, body, _) =>
      VisitStmtsKeeps(e, VisitItems(e, st, items), body);
    case Try(_, _, _, _, _) => TryKeeps(e, st, s);
    case Return(_, _) =>
    case Import(_, _) =>
    case ImportFrom(_, _, _) =>
    case Simple(parts, _) => VisitPartsKeeps(e, st, parts);
  }

  lemma {:induction false} FunctionDefKeeps(e: PEnv, st: PState, s: Stmt)
    requires s.FunctionDef?
    ensures Keeps(e, st, VisitStmt(e, st, s))
    ensures Framed(st) ==> VisitStmt(e, st, s).currentFunction == st.currentFunction
    ensures VisitStmt(e, st, s).started ==> st.started || Reaches(s, e.targetLine)
    decreases s, 0
  {
    var s1 := st.(functionStack := st.functionStack + [s.name], currentFunction := s.name);
    var s2 := if Backward(e) then ParamNodes(e, s1, s, |s.params|) else s1;
    var s3 := VisitExprs(e, s2, s.argExprs);
    var s4 := VisitStmts(e, s3, s.body);
    VisitStmtsKeeps(e, s3, s.body);
    KeepsTrans(e, st, s2, s3);
    KeepsTrans(e, st, s3, s4);
    KeepsTrans(e, st, s4, VisitExprs(e, s4, s.tail));
  }

  lemma {:induction false} ForKeeps(e: PEnv, st: PState, s: Stmt)
    requires s.For?
    ensures Keeps(e, st, VisitStmt(e, st, s))
    ensures Framed(st) ==> VisitStmt(e, st, s).currentFunction == st.currentFunction
    ensures VisitStmt(e, st, s).started ==> st.started || Reaches(s, e.targetLine)
    decreases s, 0
  {
    var s1 := VisitExpr(e, VisitExpr(e, ForOwn(e, st, s), s.target), s.iter);
    OwnKeeps(e, st, s);
    KeepsTrans(e, st, ForOwn(e, st, s), s1);
    VisitStmtsKeeps(e, s1, s.body);
    VisitStmtsKeeps(e, VisitStmts(e, s1, s.body), s.orelse);
    KeepsTrans(e, st, s1, VisitStmts(e, s1, s.body));
    KeepsTrans(e, st, VisitStmts(e, s1, s.body), VisitStmt(e, st, s));
  }

  lemma {:induction false} WhileKeeps(e: PEnv, st: PState, s: Stmt)
    requires s.While?
    ensures Keeps(e, st, VisitStmt(e, st, s))
    ensures Framed(st) ==> VisitStmt(e, st, s).currentFunction == st.currentFunction
    ensures VisitStmt(e, st, s).started ==> st.started || Reaches(s, e.targetLine)
    decreases s, 0
  {
    var s1 := VisitExpr(e, st, s.test);
    VisitStmtsKeeps(e, s1, s.body);
    VisitStmtsKeeps(e, VisitStmts(e, s1, s.body), s.orelse);
    KeepsTrans(e, st, s1, VisitStmts(e, s1, s.body));
    KeepsTrans(e, st, VisitStmts(e, s1, s.body), VisitStmt(e, st, s));
  }

  lemma {:induction false} IfKeeps(e: PEnv, st: PState, s: Stmt)
    requires s.If?
    ensures Keeps(e, st, VisitStmt(e, st, s))
    ensures Framed(st) ==> VisitStmt(e, st, s).currentFunction == st.currentFunction
    ensures VisitStmt(e, st, s).started ==> st.started || Reaches(s, e.targetLine)
    decreases s, 0
  {
    var s1 := VisitExpr(e, st, s.test);
    VisitStmtsKeeps(e, s1, s.body);
    VisitStmtsKeeps(e, VisitStmts(e, s1, s.body), s.orelse);
    KeepsTrans(e, st, s1, VisitStmts(e, s1, s.body));
    KeepsTrans(e, st, VisitStmts(e, s1, s.body), VisitStmt(e, st, s));
  }

  lemma {:induction false} TryKeeps(e: PEnv, st: PState, s: Stmt)
    requires s.Try?
    ensures Keeps(e, st, VisitStmt(e, st, s))
    ensures Framed(st) ==> VisitStmt(e, st, s).currentFunction == st.currentFunction
    ensures VisitStmt(e, st, s).started ==> st.started || Reaches(s, e.targetLine)
    decreases s, 0
  {
    var s1 := VisitStmts(e, st, s.body);
    var s2 := VisitHandlers(e, s1, s.handlers);
    var s3 := VisitStmts(e, s2, s.orelse);
    VisitStmtsKeeps(e, st, s.body);
    VisitHandlersKeeps(e, s1, s.handlers);
    VisitStmtsKeeps(e, s2, s.orelse);
    VisitStmtsKeeps(e, s3, s.finalbody);
    KeepsTrans(e, st, s1, s2);
    KeepsTrans(e, st, s2, s3);
    KeepsTrans(e, st, s3, VisitStmt(e, st, s));
  }

  lemma {:induction false} VisitStmtsKeeps(e: PEnv, st: PState, ss: seq<Stmt>)
    ensures Keeps(e, st, VisitStmts(e, st, ss))
    ensures Framed(st) ==> VisitStmts(e, st, ss).currentFunction == st.currentFunction
    ensures VisitStmts(e, st, ss).started ==> st.started || ReachesAll(ss, e.targetLine)
    decreases ss
  {
    if ss != [] {
      var n := |ss| - 1;
      VisitStmtsKeeps(e, st, ss[..n]);
      VisitStmtKeeps(e, VisitStmts(e, st, ss[..n]), ss[n]);
      KeepsTrans(e, st, VisitStmts(e, st, ss[..n]), VisitStmts(e, st, ss));
    }
  }

  lemma {:induction false} VisitHandlersKeeps(e: PEnv, st: PState, hs: seq<Handler>)
    ensures Keeps(e, st, VisitHandlers(e, st, hs))
    ensures Framed(st) ==> VisitHandlers(e, st, hs).currentFunction == st.currentFunction
    ensures VisitHandlers(e, st, hs).started ==> st.started || ReachesHandlers(hs, e.targetLine)
    decreases hs
  {
    if hs != [] {
      var n := |hs| - 1;
      var h := hs[n];
      var t := VisitHandlers(e, st, hs[..n]);
      var t1 := if h.typ.Some? then VisitExpr(e, t, h.typ.value) else t;
      VisitHandlersKeeps(e, st, hs[..n]);
      VisitStmtsKeeps(e, t1, h.body);
      KeepsTrans(e, st, t, t1);
      KeepsTrans(e, st, t1, VisitHandlers(e, st, hs));
    }
  }

  lemma {:induction false} VisitPartsKeeps(e: PEnv, st: PState, ps: seq<Part>)
    ensures Keeps(e, st, VisitParts(e, st, ps))
    ensures Framed(st) ==> VisitParts(e, st, ps).currentFunction == st.currentFunction
    ensures VisitParts(e, st, ps).started ==> st.started || ReachesParts(ps, e.targetLine)
    decreases ps
  {
    if ps != [] {
      var n := |ps| - 1;
      VisitPartsKeeps(e, st, ps[..n]);
      VisitPartKeeps(e, VisitParts(e, st, ps[..n]), ps[n]);
      KeepsTrans(e, st, VisitParts(e, st, ps[..n]), VisitParts(e, st, ps));
    }
  }

  lemma {:induction false} VisitPartKeeps(e: PEnv, st: PState, p: Part)
    ensures Keeps(e, st, VisitPart(e, st, p))
    ensures Framed(st) ==> VisitPart(e, st, p).currentFunction == st.currentFunction
    ensures VisitPart(e, st, p).started ==> st.started || ReachesPart(p, e.targetLine)
    decreases p
  {
    match p
    case E(_) =>
    case B(block) => VisitStmtsKeeps(e, st, block);
    case N(fields) => VisitPartsKeeps(e, st, fields);
  }

  // ---------------------------------------------------------------------------
  // properties of the prototype's slicing

  /** A forward slicer reports nothing from a module that has no assignment at or
      below the criterion line: it never starts. Every node of a run carries the
      placeholder file. */
  lemma RunShape(e: PEnv, tree: Module)
    ensures forall n :: n in Run(e, tree) ==> n.file == Placeholder
    ensures !Backward(e) && !ReachesAll(tree.body, e.targetLine) ==> Run(e, tree) == []
  {
    VisitStmtsKeeps(e, InitialState(e.targetVar, e.direction), tree.body);
  }

  /** Unlike the engine, the prototype reports a relevant assignment backward at
      any line, below the criterion as well as above it, and makes its right-hand
      names relevant. */
  lemma BackwardAnyLine(e: PEnv, st: PState, x: Ident, value: Expr, line: Line)
    requires Backward(e) && x in st.relevant
    ensures var r := VisitStmt(e, st, Assign([Name(x)], value, line));
      && |st.nodes| < |r.nodes|
      && r.nodes[|st.nodes|] == Direct(e, st, line, x, "assignment", e.listing(PlainNames(value)), None)
      && st.relevant + PlainNames(value) <= r.relevant
  {
    var s := Assign([Name(x)], value, line);
    var node := Direct(e, st, line, x, "assignment", e.listing(PlainNames(value)), None);
    assert AssignBackward(e, st, s, 0) == st;
    var s1 := AssignOwn(e, st, s);
    assert s1 == AssignBackward(e, st, s, 1);
    assert s1.nodes == st.nodes + [node];
    var s2 := VisitExprs(e, s1, [Name(x)]);
    var r := VisitExpr(e, s2, value);
    assert VisitStmt(e, st, s) == r;
    assert s1.nodes <= r.nodes;
    assert r.nodes[|st.nodes|] == s1.nodes[|st.nodes|];
  }

  /** The same for `for`: a backward prototype reports a loop over a relevant
      name at any line, below the target line too, and makes the iterable's
      names relevant. */
  lemma BackwardForAnyLine(e: PEnv, st: PState, x: Ident, iter: Expr, body: seq<Stmt>,
                           orelse: seq<Stmt>, line: Line)
    requires Backward(e) && x in st.relevant
    ensures var r := VisitStmt(e, st, For(Name(x), iter, body, orelse, line));
      && |st.nodes| < |r.nodes|
      && r.nodes[|st.nodes|] == Direct(e, st, line, x, "for loop", e.listing(PlainNames(iter)),
                                       Some("iterates over " + SetRepr(e.listing, PlainNames(iter))))
      && st.relevant + PlainNames(iter) <= r.relevant
  {
    var s := For(Name(x), iter, body, orelse, line);
    var s0 := ForOwn(e, st, s);
    assert s0.nodes == st.nodes + [Direct(e, st, line, x, "for loop", e.listing(PlainNames(iter)),
                                          Some("iterates over " + SetRepr(e.listing, PlainNames(iter))))];
    assert s0.relevant == st.relevant + PlainNames(iter);
    var s1 := VisitExpr(e, VisitExpr(e, s0, Name(x)), iter);
    VisitStmtsKeeps(e, s1, body);
    VisitStmtsKeeps(e, VisitStmts(e, s1, body), orelse);
    var r := VisitStmt(e, st, s);
    assert r == VisitStmts(e, VisitStmts(e, s1, body), orelse);
    assert s0.nodes <= r.nodes;
    assert r.nodes[|st.nodes|] == s0.nodes[|st.nodes|];
  }

  /** Unlike the engine, a started forward prototype reports inside any function:
      an assignment from an affected name in a function defined after the start
      is reported, labelled with that function. */
  lemma ForwardAnyFunction(e: PEnv, st: PState, f: Ident, params: seq<Ident>, y: Ident, x: Ident,
                           line: Line, defLine: Line)
    requires !Backward(e) && st.started && x in st.affected
    ensures var r := VisitStmt(e, st, FunctionDef(f, params, [], [Assign([Name(y)], Name(x), line)], [], defLine));
      && |st.nodes| < |r.nodes|
      && r.nodes[|st.nodes|].func == f && r.nodes[|st.nodes|].variable == y
      && r.nodes[|st.nodes|].line == line && r.nodes[|st.nodes|].operation == "assignment"
  {
    var a := Assign([Name(y)], Name(x), line);
    var s1 := st.(functionStack := st.functionStack + [f], currentFunction := f);
    assert x in PlainNames(Name(x)) * s1.affected;
    assert AssignForward(e, s1, a, 0) == s1;
    var t := AssignOwn(e, s1, a);
    assert t == AssignForward(e, s1, a, 1);
    assert t.nodes == s1.nodes + [Direct(e, s1, line, y, "assignment", e.listing(PlainNames(Name(x)) * s1.affected), None)];
    assert [a][..0] == [];
    assert [Name(y)][..0] == [];
    assert VisitStmts(e, s1, [a]) == VisitStmt(e, s1, a);
    assert VisitExprs(e, t, [Name(y)]) == t;
    assert VisitStmt(e, s1, a) == VisitExpr(e, VisitExprs(e, t, [Name(y)]), Name(x));
  }

  /** How many of the expressions mention one of the names. */
  function Meeting(xs: seq<Expr>, names: set<string>): nat
    decreases |xs|
  {
    if xs == [] then 0
    else Meeting(xs[..|xs| - 1], names) + (if PlainNames(xs[|xs| - 1]) * names != {} then 1 else 0)
  }

  /** `visit_Call` reports one node per argument that mentions a checked name, each
      a `passed to f()` fact at the call's line, and changes nothing else: in
      particular a backward slicer does not make the arguments' names relevant. */
  lemma {:induction false} CallArgsReported(e: PEnv, st: PState, x: Expr, k: nat)
    requires x.Call? && k <= |x.args|
    ensures var r := CallArgs(e, st, x, k);
      && r == st.(nodes := r.nodes)
      && |r.nodes| == |st.nodes| + Meeting(x.args[..k], CheckSet(e, st))
      && forall i :: |st.nodes| <= i < |r.nodes| ==>
           r.nodes[i].operation == "passed to " + FuncName(x.func) + "()" && r.nodes[i].line == x.line
  {
    if k > 0 {
      CallArgsReported(e, st, x, k - 1);
      assert x.args[..k][..k - 1] == x.args[..k - 1];
    }
  }

  // ---------------------------------------------------------------------------
  // slice_variable

  /** `for node in slicer.nodes: node.file = target_file`. */
  function Relabel(nodes: seq<SliceNode>, file: string): (r: seq<SliceNode>)
    ensures |r| == |nodes|
    ensures forall i :: 0 <= i < |nodes| ==> r[i] == nodes[i].(file := file)
  {
    if nodes == [] then [] else Relabel(nodes[..|nodes| - 1], file) + [nodes[|nodes| - 1].(file := file)]
  }

  /** One direction of `slice_variable`: a fresh slicer's nodes, relabelled with the
      target file and sorted by line (stably, so nodes on one line keep their order). */
  function DirectionSlice(variable: string, line: int, direction: string, lines: seq<string>,
                          listing: Listing, tree: Module, targetFile: string): seq<SliceNode> {
    SortBy(Relabel(Run(PEnv(variable, line, direction, lines, listing), tree), targetFile), LineLe)
  }

  /** `slice_variable(file_path, variable, line, direction)`: the file is opened
      relative to the working directory; a file that cannot be read or does not
      parse is an error; otherwise the slices the direction string asks for. */
  function SliceVariable(fs: FileSystem, filePath: Path, variable: string, line: int, direction: string,
                         listing: Listing): Result<SliceResult, SliceError>
  {
    var full := fs.cwd + filePath;
    if full !in fs.text then Err(CannotRead)
    else if full !in fs.trees then Err(CannotParse)
    else
      var lines := SplitOn(fs.text[full], '\n');
      var tree := fs.trees[full];
      var target := FileName(filePath);
      var backward := if direction in {"backward", "both"}
                      then DirectionSlice(variable, line, "backward", lines, listing, tree, target) else [];
      var forward := if direction in {"forward", "both"}
                     then DirectionSlice(variable, line, "forward", lines, listing, tree, target) else [];
      Ok(SliceResult(target, line, variable, backward, forward))
  }

  /** A direction's slice is the slicer's nodes, relabelled, in line order: a
      permutation in which every node carries the target file. */
  lemma DirectionSliceShape(variable: string, line: int, direction: string, lines: seq<string>,
                            listing: Listing, tree: Module, targetFile: string)
    ensures var r := DirectionSlice(variable, line, direction, lines, listing, tree, targetFile);
      var found := Run(PEnv(variable, line, direction, lines, listing), tree);
      && SortedBy(r, LineLe)
      && multiset(r) == multiset(Relabel(found, targetFile))
      && forall n :: n in r ==> n.file == targetFile
  {
    var found := Run(PEnv(variable, line, direction, lines, listing), tree);
    var rel := Relabel(found, targetFile);
    var r := SortBy(rel, LineLe);
    SortBySorted(rel, LineLe);
    forall n | n in r ensures n.file == targetFile {
      assert n in multiset(rel);
      var i :| 0 <= i < |rel| && rel[i] == n;
    }
  }

  /** `slice_variable` fails exactly when the file cannot be read or parsed, and
      otherwise reports the target file's name, the line and the variable, with a
      slice only for each direction the string names. */
  lemma SliceVariableShape(fs: FileSystem, filePath: Path, variable: string, line: int, direction: string,
                           listing: Listing)
    ensures var r := SliceVariable(fs, filePath, variable, line, direction, listing);
      && (r.Ok? <==> fs.cwd + filePath in fs.text && fs.cwd + filePath in fs.trees)
      && (fs.cwd + filePath !in fs.text ==> r == Err(CannotRead))
      && (r.Ok? ==>
            && r.value.targetFile == FileName(filePath) && r.value.targetLine == line
            && r.value.targetVariable == variable
            && (direction !in {"backward", "both"} ==> r.value.backwardSlice == [])
            && (direction !in {"forward", "both"} ==> r.value.forwardSlice == []))
  {
  }

  /** Both slices of a successful `slice_variable` are in line order and carry
      the target file's name on every node. */
  lemma SliceVariableOrdered(fs: FileSystem, filePath: Path, variable: string, line: int, direction: string,
                             listing: Listing)
    requires SliceVariable(fs, filePath, variable, line, direction, listing).Ok?
    ensures var r := SliceVariable(fs, filePath, variable, line, direction, listing).value;
      && SortedBy(r.backwardSlice, LineLe) && SortedBy(r.forwardSlice, LineLe)
      && (forall n :: n in r.backwardSlice ==> n.file == FileName(filePath))
      && (forall n :: n in r.forwardSlice ==> n.file == FileName(filePath))
  {
    var full := fs.cwd + filePath;
    var lines := SplitOn(fs.text[full], '\n');
    var tree := fs.trees[full];
    DirectionSliceShape(variable, line, "backward", lines, listing, tree, FileName(filePath));
    DirectionSliceShape(variable, line, "forward", lines, listing, tree, FileName(filePath));
  }

  /** The forward slice of a file with no assignment at or below the criterion
      line is empty. */
  lemma ForwardNeedsCriterion(fs: FileSystem, filePath: Path, variable: string, line: int, direction: string,
                              listing: Listing)
    requires SliceVariable(fs, filePath, variable, line, direction, listing).Ok?
    requires !ReachesAll(fs.trees[fs.cwd + filePath].body, line)
    ensures SliceVariable(fs, filePath, variable, line, direction, listing).value.forwardSlice == []
  {
    var full := fs.cwd + filePath;
    RunShape(PEnv(variable, line, "forward", SplitOn(fs.text[full], '\n'), listing), fs.trees[full]);
  }
}
