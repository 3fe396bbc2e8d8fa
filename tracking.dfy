/** What the engine does inside a called function: `_track_statement_forward`
    and `_track_statement_backward` run over the callee's body with a set of
    tracked names of their own, emitting slice nodes labelled with the callee's
    file and name. Also here: how a list is made from a set, the source line of
    a node, and the binding of call arguments to parameters. */
module Tracking {
  import opened Wrappers
  import opened Strings
  import opened PyAst
  import opened NameAnalysis
  import opened Models

  // ---------------------------------------------------------------------------
  // lists made from sets

  /** `list(s)`: Python iterates a set of strings in an order that depends on
      string hashing, which is randomised per process. The model takes that order
      as a parameter: some function from a set to a list of its elements. */
  type Listing = set<string> -> seq<string>

  /** `xs` lists the elements of `s`, each once. */
  predicate Enumerates(xs: seq<string>, s: set<string>) {
    |xs| == |s| && (forall x :: x in xs ==> x in s) && (forall x :: x in s ==> x in xs)
  }

  ghost predicate IsListing(listing: Listing) {
    forall s :: Enumerates(listing(s), s)
  }

  /** `list(s)[0]`, or "" for an empty list. */
  function Pick(listing: Listing, s: set<string>): (r: string)
    ensures IsListing(listing) && s != {} ==> r in s
  {
    var xs := listing(s);
    if xs == [] then "" else xs[0]
  }

  lemma EnumeratesNonEmpty(xs: seq<string>, s: set<string>)
    requires Enumerates(xs, s) && s != {}
    ensures xs != []
  {
    var x :| x in s;
    assert x in xs;
  }

  /** `', '.join(repr(x) for x in xs)` for names, whose repr is the name in single quotes. */
  function QuotedItems(xs: seq<string>): string {
    if xs == [] then ""
    else if |xs| == 1 then "'" + xs[0] + "'"
    else "'" + xs[0] + "', " + QuotedItems(xs[1..])
  }

  /** `f"{s}"` for a set of names: `set()` when empty, `{'a', 'b'}` otherwise. */
  function SetRepr(listing: Listing, s: set<string>): (r: string)
    ensures s == {} ==> r == "set()"
    ensures s != {} ==> |r| >= 2 && r[0] == '{' && r[|r| - 1] == '}'
  {
    if s == {} then "set()" else "{" + QuotedItems(listing(s)) + "}"
  }

  // ---------------------------------------------------------------------------
  // source lines

  /** `source_lines[lineno - 1] if lineno <= len(source_lines) else ""`. */
  function CodeAt(lines: seq<string>, line: Line): (r: string)
    ensures line <= |lines| ==> r == lines[line - 1]
    ensures line > |lines| ==> r == ""
  {
    if line <= |lines| then lines[line - 1] else ""
  }

  // ---------------------------------------------------------------------------
  // binding call arguments to parameters

  /** `param_mapping`: argument `i` binds parameter `i` when the function declares
      that many parameters and the argument's names meet `relevant`; a later
      binding of the same parameter overwrites an earlier one. */
  function ParamMapping(params: seq<Ident>, args: seq<Expr>, relevant: set<string>): (m: map<string, set<string>>)
    decreases |args|
  {
    if args == [] then map[]
    else
      var i := |args| - 1;
      var m := ParamMapping(params, args[..i], relevant);
      if i < |params| && Names(args[i]) * relevant != {} then m[params[i] := Names(args[i])] else m
  }

  /** A parameter is bound exactly when some argument at its position, within the
      declared parameters, mentions a relevant name. */
  lemma {:induction false} ParamMappingKeys(params: seq<Ident>, args: seq<Expr>, relevant: set<string>, p: string)
    ensures p in ParamMapping(params, args, relevant) <==>
      exists i :: 0 <= i < |args| && i < |params| && params[i] == p && Names(args[i]) * relevant != {}
    decreases |args|
  {
    if args != [] {
      var n := |args| - 1;
      ParamMappingKeys(params, args[..n], relevant, p);
      assert forall i :: 0 <= i < n ==> args[..n][i] == args[i];
    }
  }

  /** Only arguments meeting the relevant set bind: with nothing relevant, nothing binds. */
  lemma NoRelevantNoMapping(params: seq<Ident>, args: seq<Expr>)
    ensures ParamMapping(params, args, {}) == map[]
  {
    forall p ensures p !in ParamMapping(params, args, {}) {
      ParamMappingKeys(params, args, {}, p);
    }
  }

  // ---------------------------------------------------------------------------
  // the statements tracked inside a compound statement

  function HandlerBodies(hs: seq<Handler>): seq<Stmt> {
    if hs == [] then [] else hs[0].body + HandlerBodies(hs[1..])
  }

  /** The sub-statements `_track_statement_forward` recurses into, in its order:
      for Try the body, else and finally blocks, then every handler's body; for
      With the body; for For, While and If the body and the else block. */
  function SubStmts(s: Stmt): seq<Stmt> {
    match s
    case Try(body, handlers, orelse, finalbody, _) => body + orelse + finalbody + HandlerBodies(handlers)
    case With(_, body, _) => body
    case For(_, _, body, orelse, _) => body + orelse
    case While(_, body, orelse, _) => body + orelse
    case If(_, body, orelse, _) => body + orelse
    case _ => []
  }

  lemma {:induction false} SizeAllAppend(a: seq<Stmt>, b: seq<Stmt>)
    ensures SizeAll(a + b) == SizeAll(a) + SizeAll(b)
    decreases |a|
  {
    if a == [] {
      assert a + b == b;
    } else {
      assert (a + b)[0] == a[0] && (a + b)[1..] == a[1..] + b;
      SizeAllAppend(a[1..], b);
    }
  }

  lemma {:induction false} HandlerBodiesSize(hs: seq<Handler>)
    ensures SizeAll(HandlerBodies(hs)) <= HandlersSize(hs)
    decreases |hs|
  {
    if hs != [] {
      HandlerBodiesSize(hs[1..]);
      SizeAllAppend(hs[0].body, HandlerBodies(hs[1..]));
    }
  }

  lemma SubStmtsSize(s: Stmt)
    ensures SizeAll(SubStmts(s)) < Size(s)
  {
    match s
    case Try(body, handlers, orelse, finalbody, _) =>
      SizeAllAppend(body, orelse);
      SizeAllAppend(body + orelse, finalbody);
      SizeAllAppend(body + orelse + finalbody, HandlerBodies(handlers));
      HandlerBodiesSize(handlers);
    case For(_, _, body, orelse, _) => SizeAllAppend(body, orelse);
    case While(_, body, orelse, _) => SizeAllAppend(body, orelse);
    case If(_, body, orelse, _) => SizeAllAppend(body, orelse);
    case _ =>
  }

  lemma SizeAllSnoc(ss: seq<Stmt>)
    requires ss != []
    ensures SizeAll(ss) == SizeAll(ss[..|ss| - 1]) + Size(ss[|ss| - 1])
  {
    var init, last := ss[..|ss| - 1], ss[|ss| - 1];
    assert ss == init + [last];
    SizeAllAppend(init, [last]);
    assert [last][1..] == [];
    assert SizeAll([last]) == Size(last);
  }

  lemma {:induction false} SizeAllElem(ss: seq<Stmt>, i: nat)
    requires i < |ss|
    ensures Size(ss[i]) <= SizeAll(ss)
    decreases |ss|
  {
    if i > 0 {
      SizeAllElem(ss[1..], i - 1);
    }
  }

  // ---------------------------------------------------------------------------
  // tracking inside a callee

  /** Where tracked statements live: the file name and source lines the nodes are
      labelled with, and the callee's name. */
  datatype Callee = Callee(file: string, lines: seq<string>, func: string, listing: Listing)

  /** The nodes a tracking step emits, in order, and the tracked names after it. */
  datatype Tracked = Tracked(nodes: seq<SliceNode>, vars: set<string>)

  /** A node emitted for names `inter` of a statement at `line` of the callee. */
  function CalleeNode(c: Callee, line: Line, inter: set<string>, operation: string): SliceNode {
    SliceNode(c.file, line, c.func, CodeAt(c.lines, line), Pick(c.listing, inter), operation,
              c.listing(inter), None)
  }

  /** The first target of an assignment when it is a plain name, else "". */
  function FirstTargetName(targets: seq<Expr>): (r: string)
    ensures r != "" <==> targets != [] && targets[0].Name?
  {
    if targets != [] && targets[0].Name? then targets[0].id else ""
  }

  /** One `with` item after another: a node for each item whose context
      expression meets the tracked names. */
  function WithNodes(c: Callee, vars: set<string>, items: seq<WithItem>, line: Line): (r: seq<SliceNode>)
    ensures |r| <= |items|
    decreases |items|
  {
    if items == [] then []
    else
      var n := |items| - 1;
      var inter := Names(items[n].context) * vars;
      WithNodes(c, vars, items[..n], line) + (if inter != {} then [CalleeNode(c, line, inter, "used in with statement")] else [])
  }

  /** `_track_statement_forward(stmt, affected_vars, ...)`. */
  function TrackForward(c: Callee, vars: set<string>, s: Stmt): Tracked
    decreases Size(s), 0
  {
    match s
    case Assign(targets, value, line) =>
      var inter := Names(value) * vars;
      if inter == {} then Tracked([], vars)
      else
        var target := FirstTargetName(targets);
        Tracked([CalleeNode(c, line, inter, "assignment")], if target != "" then vars + {target} else vars)
    case ExprStmt(Call(f, args, _, _), line) =>
      var inter := NamesAll(args) * vars;
      if inter == {} then Tracked([], vars)
      else Tracked([CalleeNode(c, line, inter, "passed to " + FuncName(f) + "()")], vars)
    case Return(Some(value), line) =>
      var inter := Names(value) * vars;
      if inter == {} then Tracked([], vars)
      else Tracked([CalleeNode(c, line, inter, "returned")], vars)
    case Try(_, _, _, _, _) => SubStmtsSize(s); TrackForwardAll(c, vars, SubStmts(s))
    case With(items, _, line) =>
      SubStmtsSize(s);
      var t := TrackForwardAll(c, vars, SubStmts(s));
      Tracked(WithNodes(c, vars, items, line) + t.nodes, t.vars)
    case For(_, _, _, _, _) => SubStmtsSize(s); TrackForwardAll(c, vars, SubStmts(s))
    case While(_, _, _, _) => SubStmtsSize(s); TrackForwardAll(c, vars, SubStmts(s))
    case If(_, _, _, _) => SubStmtsSize(s); TrackForwardAll(c, vars, SubStmts(s))
    case _ => Tracked([], vars)
  }

  /** The statements of a block tracked forward one after the other. */
  function TrackForwardAll(c: Callee, vars: set<string>, ss: seq<Stmt>): Tracked
    decreases SizeAll(ss), 1
  {
    if ss == [] then Tracked([], vars)
    else
      SizeAllSnoc(ss);
      var t := TrackForwardAll(c, vars, ss[..|ss| - 1]);
      var u := TrackForward(c, t.vars, ss[|ss| - 1]);
      Tracked(t.nodes + u.nodes, u.vars)
  }

  /** `for target in targets: if target is a tracked name: tracked |= names(value)`. */
  function RedefinedTargets(targets: seq<Expr>, rhs: set<string>, vars: set<string>): set<string>
    decreases |targets|
  {
    if targets == [] then vars
    else
      var n := |targets| - 1;
      var v := RedefinedTargets(targets[..n], rhs, vars);
      if targets[n].Name? && targets[n].id in v then v + rhs else v
  }

  /** The final loop of `_track_statement_backward` over `ast.walk(stmt)`. */
  function WalkUpdates(walked: seq<Stmt>, vars: set<string>): set<string>
    decreases |walked|
  {
    if walked == [] then vars
    else
      var n := |walked| - 1;
      var v := WalkUpdates(walked[..n], vars);
      if walked[n].Assign? then RedefinedTargets(walked[n].targets, Names(walked[n].value), v) else v
  }

  /** `_track_statement_backward(stmt, tracked_vars, ...)`: an assignment that uses a
      tracked name is emitted and its first target (a plain name) becomes tracked;
      a call statement passing a tracked name is emitted; then every assignment
      anywhere inside the statement whose target is tracked makes its right-hand
      names tracked. Nothing inside a compound statement is emitted. */
  function TrackBackward(c: Callee, vars: set<string>, s: Stmt): Tracked {
    var first := BackwardEmit(c, vars, s);
    Tracked(first.nodes, WalkUpdates(WalkStmt(s), first.vars))
  }

  /** The part of `_track_statement_backward` before its walk. */
  function BackwardEmit(c: Callee, vars: set<string>, s: Stmt): Tracked {
    match s
    case Assign(targets, value, line) =>
      var rhs := Names(value);
      var inter := rhs * vars;
      var target := FirstTargetName(targets);
      var e := if inter == {} then Tracked([], vars)
               else Tracked([CalleeNode(c, line, inter, "assignment")], if target != "" then vars + {target} else vars);
      Tracked(e.nodes, RedefinedTargets(targets, rhs, e.vars))
    case ExprStmt(Call(f, args, _, _), line) =>
      var inter := NamesAll(args) * vars;
      if inter == {} then Tracked([], vars)
      else Tracked([CalleeNode(c, line, inter, "passed to " + FuncName(f) + "()")], vars)
    case _ => Tracked([], vars)
  }

  function TrackBackwardAll(c: Callee, vars: set<string>, ss: seq<Stmt>): Tracked
    decreases |ss|
  {
    if ss == [] then Tracked([], vars)
    else
      var t := TrackBackwardAll(c, vars, ss[..|ss| - 1]);
      var u := TrackBackward(c, t.vars, ss[|ss| - 1]);
      Tracked(t.nodes + u.nodes, u.vars)
  }

  /** One more statement of a block tracked backward. */
  lemma TrackBackwardAllStep(c: Callee, vars: set<string>, ss: seq<Stmt>, i: nat)
    requires i < |ss|
    ensures var t := TrackBackwardAll(c, vars, ss[..i]);
      var u := TrackBackward(c, t.vars, ss[i]);
      TrackBackwardAll(c, vars, ss[..i + 1]) == Tracked(t.nodes + u.nodes, u.vars)
  {
    assert ss[..i + 1][..i] == ss[..i];
    assert ss[..i + 1][i] == ss[i];
  }

  /** One more statement of a block tracked forward. */
  lemma TrackForwardAllStep(c: Callee, vars: set<string>, ss: seq<Stmt>, i: nat)
    requires i < |ss|
    ensures var t := TrackForwardAll(c, vars, ss[..i]);
      var u := TrackForward(c, t.vars, ss[i]);
      TrackForwardAll(c, vars, ss[..i + 1]) == Tracked(t.nodes + u.nodes, u.vars)
  {
    assert ss[..i + 1][..i] == ss[..i];
    assert ss[..i + 1][i] == ss[i];
  }

  // ---------------------------------------------------------------------------
  // properties of tracking

  /** Forward tracking only ever adds names. */
  lemma {:induction false} TrackForwardGrows(c: Callee, vars: set<string>, s: Stmt)
    ensures vars <= TrackForward(c, vars, s).vars
    decreases Size(s), 0
  {
    match s
    case Try(_, _, _, _, _) => SubStmtsSize(s); TrackForwardAllGrows(c, vars, SubStmts(s));
    case With(_, _, _) => SubStmtsSize(s); TrackForwardAllGrows(c, vars, SubStmts(s));
    case For(_, _, _, _, _) => SubStmtsSize(s); TrackForwardAllGrows(c, vars, SubStmts(s));
    case While(_, _, _, _) => SubStmtsSize(s); TrackForwardAllGrows(c, vars, SubStmts(s));
    case If(_, _, _, _) => SubStmtsSize(s); TrackForwardAllGrows(c, vars, SubStmts(s));
    case _ =>
  }

  lemma {:induction false} TrackForwardAllGrows(c: Callee, vars: set<string>, ss: seq<Stmt>)
    ensures vars <= TrackForwardAll(c, vars, ss).vars
    decreases SizeAll(ss), 1
  {
    if ss != [] {
      SizeAllSnoc(ss);
      TrackForwardAllGrows(c, vars, ss[..|ss| - 1]);
      TrackForwardGrows(c, TrackForwardAll(c, vars, ss[..|ss| - 1]).vars, ss[|ss| - 1]);
    }
  }

  /** An operation of the form `passed to f()`. */
  predicate IsPassedTo(op: string) {
    |op| >= 12 && op[..10] == "passed to " && op[|op| - 2..] == "()"
  }

  /** Every node forward tracking emits belongs to the callee, and names as its
      dependencies the tracked names its expression mentions, which are never none. */
  ghost predicate CalleeEmitted(c: Callee, n: SliceNode) {
    && n.file == c.file && n.func == c.func && n.context == None
    && n.line >= 1 && n.code == CodeAt(c.lines, n.line as Line)
    && (n.operation in {"assignment", "returned", "used in with statement"} || IsPassedTo(n.operation))
    && exists inter: set<string> :: inter != {} && n.dependencies == c.listing(inter) && n.variable == Pick(c.listing, inter)
  }

  lemma {:induction false} WithNodesEmitted(c: Callee, vars: set<string>, items: seq<WithItem>, line: Line)
    ensures forall n :: n in WithNodes(c, vars, items, line) ==> CalleeEmitted(c, n) && n.line == line
    decreases |items|
  {
    if items != [] {
      var k := |items| - 1;
      WithNodesEmitted(c, vars, items[..k], line);
      var inter := Names(items[k].context) * vars;
      if inter != {} {
        assert CalleeEmitted(c, CalleeNode(c, line, inter, "used in with statement"));
      }
    }
  }

  lemma {:induction false} TrackForwardEmitted(c: Callee, vars: set<string>, s: Stmt)
    ensures forall n :: n in TrackForward(c, vars, s).nodes ==> CalleeEmitted(c, n)
    decreases Size(s), 0
  {
    match s
    case Assign(_, value, line) =>
      var inter := Names(value) * vars;
      if inter != {} {
        assert CalleeEmitted(c, CalleeNode(c, line, inter, "assignment"));
      }
    case ExprStmt(Call(f, args, _, _), line) =>
      var inter := NamesAll(args) * vars;
      if inter != {} {
        assert CalleeEmitted(c, CalleeNode(c, line, inter, "passed to " + FuncName(f) + "()"));
      }
    case Return(Some(value), line) =>
      var inter := Names(value) * vars;
      if inter != {} {
        assert CalleeEmitted(c, CalleeNode(c, line, inter, "returned"));
      }
    case Try(_, _, _, _, _) => SubStmtsSize(s); TrackForwardAllEmitted(c, vars, SubStmts(s));
    case With(items, _, line) =>
      SubStmtsSize(s);
      TrackForwardAllEmitted(c, vars, SubStmts(s));
      WithNodesEmitted(c, vars, items, line);
    case For(_, _, _, _, _) => SubStmtsSize(s); TrackForwardAllEmitted(c, vars, SubStmts(s));
    case While(_, _, _, _) => SubStmtsSize(s); TrackForwardAllEmitted(c, vars, SubStmts(s));
    case If(_, _, _, _) => SubStmtsSize(s); TrackForwardAllEmitted(c, vars, SubStmts(s));
    case _ =>
  }

  lemma {:induction false} TrackForwardAllEmitted(c: Callee, vars: set<string>, ss: seq<Stmt>)
    ensures forall n :: n in TrackForwardAll(c, vars, ss).nodes ==> CalleeEmitted(c, n)
    decreases SizeAll(ss), 1
  {
    if ss != [] {
      SizeAllSnoc(ss);
      TrackForwardAllEmitted(c, vars, ss[..|ss| - 1]);
      TrackForwardEmitted(c, TrackForwardAll(c, vars, ss[..|ss| - 1]).vars, ss[|ss| - 1]);
    }
  }

  /** A simple statement is emitted by forward tracking exactly when its expression
      meets the tracked names, and only an emitted assignment makes its target tracked. */
  lemma TrackForwardSimple(c: Callee, vars: set<string>, targets: seq<Expr>, value: Expr, line: Line)
    ensures var t := TrackForward(c, vars, Assign(targets, value, line));
      && (t.nodes != [] <==> Names(value) * vars != {})
      && (t.vars == if Names(value) * vars != {} && FirstTargetName(targets) != ""
                    then vars + {FirstTargetName(targets)} else vars)
    ensures var t := TrackForward(c, vars, Return(Some(value), line));
      (t.nodes != [] <==> Names(value) * vars != {}) && t.vars == vars
    ensures value.Call? ==> var t := TrackForward(c, vars, ExprStmt(value, line));
      (t.nodes != [] <==> NamesAll(value.args) * vars != {}) && t.vars == vars
  {
  }

  /** Backward tracking only ever adds names. */
  lemma {:induction false} RedefinedTargetsGrows(targets: seq<Expr>, rhs: set<string>, vars: set<string>)
    ensures vars <= RedefinedTargets(targets, rhs, vars) <= vars + rhs
    decreases |targets|
  {
    if targets != [] {
      RedefinedTargetsGrows(targets[..|targets| - 1], rhs, vars);
    }
  }

  lemma {:induction false} WalkUpdatesGrows(walked: seq<Stmt>, vars: set<string>)
    ensures vars <= WalkUpdates(walked, vars)
    decreases |walked|
  {
    if walked != [] {
      var n := |walked| - 1;
      WalkUpdatesGrows(walked[..n], vars);
      if walked[n].Assign? {
        RedefinedTargetsGrows(walked[n].targets, Names(walked[n].value), WalkUpdates(walked[..n], vars));
      }
    }
  }

  lemma TrackBackwardGrows(c: Callee, vars: set<string>, s: Stmt)
    ensures vars <= TrackBackward(c, vars, s).vars
    ensures |TrackBackward(c, vars, s).nodes| <= 1
  {
    WalkUpdatesGrows(WalkStmt(s), BackwardEmit(c, vars, s).vars);
    match s
    case Assign(targets, value, line) =>
      var rhs := Names(value);
      var target := FirstTargetName(targets);
      RedefinedTargetsGrows(targets, rhs, vars);
      RedefinedTargetsGrows(targets, rhs, vars + {target});
    case _ =>
  }

  /** A tracked assignment makes every name of its right-hand side tracked: its first
      target is tracked right after it is emitted, so the redefinition loop adds them. */
  lemma TrackBackwardAssign(c: Callee, vars: set<string>, x: Ident, targets: seq<Expr>, value: Expr, line: Line)
    requires Names(value) * vars != {}
    ensures Names(value) <= TrackBackward(c, vars, Assign([Name(x)] + targets, value, line)).vars
    ensures x in TrackBackward(c, vars, Assign([Name(x)] + targets, value, line)).vars
  {
    var all := [Name(x)] + targets;
    var rhs := Names(value);
    var v0 := vars + {x};
    assert FirstTargetName(all) == x;
    RedefinedAllTargets(all, rhs, v0);
    var first := RedefinedTargets(all, rhs, v0);
    WalkUpdatesGrows(WalkStmt(Assign(all, value, line)), first);
  }

  /** When the first target is already tracked, the redefinition loop adds the whole right-hand side. */
  lemma {:induction false} RedefinedAllTargets(targets: seq<Expr>, rhs: set<string>, vars: set<string>)
    requires targets != [] && targets[0].Name? && targets[0].id in vars
    ensures vars + rhs <= RedefinedTargets(targets, rhs, vars)
    decreases |targets|
  {
    var n := |targets| - 1;
    if n == 0 {
      assert targets[..0] == [];
    } else {
      assert targets[..n][0] == targets[0];
      RedefinedAllTargets(targets[..n], rhs, vars);
    }
  }

  lemma {:induction false} TrackBackwardAllGrows(c: Callee, vars: set<string>, ss: seq<Stmt>)
    ensures vars <= TrackBackwardAll(c, vars, ss).vars
    ensures |TrackBackwardAll(c, vars, ss).nodes| <= |ss|
    decreases |ss|
  {
    if ss != [] {
      TrackBackwardAllGrows(c, vars, ss[..|ss| - 1]);
      TrackBackwardGrows(c, TrackBackwardAll(c, vars, ss[..|ss| - 1]).vars, ss[|ss| - 1]);
    }
  }

  /** Every node backward tracking emits is labelled with the callee's file and
      function. */
  lemma {:induction false} TrackBackwardAllLabelled(c: Callee, vars: set<string>, ss: seq<Stmt>)
    ensures forall n :: n in TrackBackwardAll(c, vars, ss).nodes ==> n.file == c.file && n.func == c.func
    decreases |ss|
  {
    if ss != [] {
      TrackBackwardAllLabelled(c, vars, ss[..|ss| - 1]);
    }
  }
}
