/** `Slicer`: reads the target file, collects its function definitions and
    imports, runs the backward visitor pass after pass until no new names turn
    up (at most ten passes), runs the forward visitor once, and orders both slices. */
module Slicing {
  import opened Wrappers
  import opened Strings
  import opened Sorting
  import opened PyAst
  import opened Models
  import opened ImportResolution
  import opened Tracking
  import opened VisitorModel
  import opened SlicerVisitors

  // ---------------------------------------------------------------------------
  // function definitions of a file

  /** `_find_function_definitions` over walked statements: every definition is
      recorded under its name, a later one replacing an earlier one. */
  function FunctionDefsOf(ss: seq<Stmt>): map<string, FuncDef>
    decreases |ss|
  {
    if ss == [] then map[]
    else
      var n := |ss| - 1;
      var m := FunctionDefsOf(ss[..n]);
      if ss[n].FunctionDef? then m[ss[n].name := ss[n]] else m
  }

  /** One more walked statement. */
  lemma FunctionDefsStep(ss: seq<Stmt>, i: nat)
    requires i < |ss|
    ensures var m := FunctionDefsOf(ss[..i]);
      FunctionDefsOf(ss[..i + 1]) == if ss[i].FunctionDef? then m[ss[i].name := ss[i]] else m
  {
    assert ss[..i + 1][..i] == ss[..i];
  }

  /** A name is recorded exactly when something defines it, and it is recorded
      with the last definition of that name in walk order. */
  lemma {:induction false} FunctionDefsLast(ss: seq<Stmt>, name: string)
    ensures name in FunctionDefsOf(ss) <==> exists i :: 0 <= i < |ss| && IsDefOf(ss[i], name)
    ensures name in FunctionDefsOf(ss) ==>
      exists i :: 0 <= i < |ss| && ss[i] == FunctionDefsOf(ss)[name] && IsDefOf(ss[i], name)
                  && forall j :: i < j < |ss| ==> !IsDefOf(ss[j], name)
    decreases |ss|
  {
    if ss != [] {
      var n := |ss| - 1;
      var init := ss[..n];
      FunctionDefsLast(init, name);
      assert forall i :: 0 <= i < n ==> init[i] == ss[i];
      if IsDefOf(ss[n], name) {
        assert FunctionDefsOf(ss) == FunctionDefsOf(init)[name := ss[n]];
      } else {
        assert name in FunctionDefsOf(ss) <==> name in FunctionDefsOf(init);
        if name in FunctionDefsOf(ss) {
          assert FunctionDefsOf(ss)[name] == FunctionDefsOf(init)[name];
          var i :| 0 <= i < n && init[i] == FunctionDefsOf(init)[name] && IsDefOf(init[i], name)
                   && forall j :: i < j < n ==> !IsDefOf(init[j], name);
          assert ss[i] == FunctionDefsOf(ss)[name] && IsDefOf(ss[i], name);
        }
      }
    }
  }

  /** When a file defines a name once, the local lookup and the lookup used for
      imported functions (the first definition in walk order) agree. */
  lemma LocalAndImportedLookupAgree(tree: Module, name: string, k: nat)
    requires k < |Walk(tree)| && IsDefOf(Walk(tree)[k], name)
    requires forall j :: 0 <= j < |Walk(tree)| && j != k ==> !IsDefOf(Walk(tree)[j], name)
    ensures name in FunctionDefsOf(Walk(tree))
    ensures FindFunctionDef(tree, name) == Some(FunctionDefsOf(Walk(tree))[name])
  {
    var ss := Walk(tree);
    FunctionDefsLast(ss, name);
    var r := FindFunctionDef(tree, name);
    assert r.Some? by {
      assert ss[k] in ss;
    }
  }

  // ---------------------------------------------------------------------------
  // the backward passes

  const MaxPasses := 10

  /** What makes two backward nodes the same: file, line, variable and operation. */
  datatype NodeKey = NodeKey(file: string, line: int, variable: string, operation: string)

  function KeyOf(n: SliceNode): NodeKey {
    NodeKey(n.file, n.line, n.variable, n.operation)
  }

  ghost predicate DistinctKeys(ns: seq<SliceNode>) {
    DistinctBy(ns, KeyOf)
  }

  /** The nodes collected so far and the keys seen. */
  datatype Collected = Collected(nodes: seq<SliceNode>, seen: set<NodeKey>)

  /** The de-duplicating loop: each node whose key has not been seen is kept. */
  function AddUnseen(acc: Collected, ns: seq<SliceNode>): (r: Collected)
    decreases |ns|
  {
    if ns == [] then acc
    else
      var t := AddUnseen(acc, ns[..|ns| - 1]);
      var n := ns[|ns| - 1];
      if KeyOf(n) in t.seen then t else Collected(t.nodes + [n], t.seen + {KeyOf(n)})
  }

  /** The seen keys are exactly the keys of the collected nodes. */
  ghost predicate Consistent(c: Collected) {
    && DistinctKeys(c.nodes)
    && (forall i :: 0 <= i < |c.nodes| ==> KeyOf(c.nodes[i]) in c.seen)
    && (forall k :: k in c.seen ==> exists i :: 0 <= i < |c.nodes| && KeyOf(c.nodes[i]) == k)
  }

  /** De-duplication keeps the collection consistent, only appends, and keeps
      the nodes it is given (or one with the same key); `AddUnseenFrom` shows it
      invents none. */
  lemma {:induction false} AddUnseenKeeps(acc: Collected, ns: seq<SliceNode>)
    requires Consistent(acc)
    ensures var r := AddUnseen(acc, ns);
      && Consistent(r) && acc.nodes <= r.nodes
      && (forall n :: n in ns ==> KeyOf(n) in r.seen)
    decreases |ns|
  {
    if ns != [] {
      var t := AddUnseen(acc, ns[..|ns| - 1]);
      var n := ns[|ns| - 1];
      AddUnseenKeeps(acc, ns[..|ns| - 1]);
      assert forall m :: m in ns ==> m in ns[..|ns| - 1] || m == n;
      if KeyOf(n) !in t.seen {
        AddOneKeeps(t, n);
      }
    }
  }

  /** Keeping one node with an unseen key keeps the collection consistent. */
  lemma AddOneKeeps(t: Collected, n: SliceNode)
    requires Consistent(t) && KeyOf(n) !in t.seen
    ensures Consistent(Collected(t.nodes + [n], t.seen + {KeyOf(n)}))
  {
    var r := Collected(t.nodes + [n], t.seen + {KeyOf(n)});
    forall i, j | 0 <= i < j < |r.nodes| ensures KeyOf(r.nodes[i]) != KeyOf(r.nodes[j]) {
      assert r.nodes[i] == t.nodes[i];
      if j < |t.nodes| {
        assert r.nodes[j] == t.nodes[j];
      }
    }
    forall i | 0 <= i < |r.nodes| ensures KeyOf(r.nodes[i]) in r.seen {
      if i < |t.nodes| {
        assert r.nodes[i] == t.nodes[i];
      }
    }
    forall k | k in r.seen ensures exists i :: 0 <= i < |r.nodes| && KeyOf(r.nodes[i]) == k {
      if k != KeyOf(n) {
        var i :| 0 <= i < |t.nodes| && KeyOf(t.nodes[i]) == k;
        assert r.nodes[i] == t.nodes[i];
      } else {
        assert KeyOf(r.nodes[|t.nodes|]) == k;
      }
    }
  }

  /** Every node collected was already collected or is one of those offered. */
  lemma {:induction false} AddUnseenFrom(acc: Collected, ns: seq<SliceNode>)
    ensures forall n :: n in AddUnseen(acc, ns).nodes ==> n in acc.nodes || n in ns
    decreases |ns|
  {
    if ns != [] {
      AddUnseenFrom(acc, ns[..|ns| - 1]);
      assert forall m :: m in ns[..|ns| - 1] ==> m in ns;
    }
  }

  /** How the passes ended: the collected nodes, the names relevant at the end,
      and how many passes ran. */
  datatype BackwardRun = BackwardRun(collected: Collected, relevant: set<string>, passes: nat)

  /** A fresh backward visitor that starts from the names accumulated so far. */
  function PassState(targetVar: string, relevant: set<string>): VState {
    InitialState(targetVar, Backward).(relevant := relevant)
  }

  /** One backward pass over the file, from the names accumulated so far. */
  function Pass(e: Env, tree: Module, relevant: set<string>): VState {
    VisitorModel.VisitModule(e, PassState(e.targetVar, relevant), tree)
  }

  /** A pass never forgets a name it started from. */
  lemma PassGrows(e: Env, tree: Module, relevant: set<string>)
    ensures relevant <= Pass(e, tree, relevant).relevant
  {
    VisitStmtsGrows(e, PassState(e.targetVar, relevant), tree.body);
  }

  /** Passes `pass`, `pass + 1`, ... of the loop of `slice`: a pass that finds no
      new name ends the loop, except the first. */
  function BackwardRunFrom(e: Env, tree: Module, pass: nat, relevant: set<string>, acc: Collected): (r: BackwardRun)
    decreases MaxPasses - pass
  {
    if pass >= MaxPasses then BackwardRun(acc, relevant, pass)
    else
      var st := Pass(e, tree, relevant);
      var acc' := AddUnseen(acc, st.nodes);
      if st.relevant - relevant == {} && pass > 0 then BackwardRun(acc', relevant, pass + 1)
      else BackwardRunFrom(e, tree, pass + 1, st.relevant, acc')
  }

  /** The loop runs at least one more pass when any is left, at least two
      when it starts at pass zero (the first pass never ends it), and at most ten. */
  lemma {:induction false} BackwardRunPasses(e: Env, tree: Module, pass: nat, relevant: set<string>, acc: Collected)
    requires pass <= MaxPasses
    ensures var r := BackwardRunFrom(e, tree, pass, relevant, acc);
      && pass <= r.passes <= MaxPasses
      && (pass < MaxPasses ==> r.passes > pass)
      && (pass == 0 ==> r.passes >= 2)
    decreases MaxPasses - pass
  {
    var r := BackwardRunFrom(e, tree, pass, relevant, acc);
    if pass < MaxPasses {
      var st := Pass(e, tree, relevant);
      var acc' := AddUnseen(acc, st.nodes);
      if st.relevant - relevant == {} && pass > 0 {
        assert r == BackwardRun(acc', relevant, pass + 1);
      } else {
        assert r == BackwardRunFrom(e, tree, pass + 1, st.relevant, acc');
        BackwardRunPasses(e, tree, pass + 1, st.relevant, acc');
      }
    } else {
      assert r == BackwardRun(acc, relevant, pass);
    }
  }

  /** The names only grow, and the loop stops before ten passes only at a
      fixpoint: one more pass from the final names finds no new name. */
  lemma {:induction false} BackwardRunFixpoint(e: Env, tree: Module, pass: nat, relevant: set<string>, acc: Collected)
    ensures var r := BackwardRunFrom(e, tree, pass, relevant, acc);
      relevant <= r.relevant && (r.passes < MaxPasses ==> Pass(e, tree, r.relevant).relevant == r.relevant)
    decreases MaxPasses - pass
  {
    var r := BackwardRunFrom(e, tree, pass, relevant, acc);
    if pass < MaxPasses {
      var st := Pass(e, tree, relevant);
      var acc' := AddUnseen(acc, st.nodes);
      PassGrows(e, tree, relevant);
      if !(st.relevant - relevant == {} && pass > 0) {
        assert r == BackwardRunFrom(e, tree, pass + 1, st.relevant, acc');
        BackwardRunFixpoint(e, tree, pass + 1, st.relevant, acc');
      } else {
        assert r == BackwardRun(acc', relevant, pass + 1);
        assert st.relevant <= relevant by {
          forall x | x in st.relevant ensures x in relevant {
            assert x !in st.relevant - relevant;
          }
        }
      }
    }
  }

  /** The collection stays free of duplicate keys and only grows. */
  lemma {:induction false} BackwardRunDistinct(e: Env, tree: Module, pass: nat, relevant: set<string>, acc: Collected)
    requires Consistent(acc)
    ensures var r := BackwardRunFrom(e, tree, pass, relevant, acc);
      Consistent(r.collected) && acc.nodes <= r.collected.nodes
    decreases MaxPasses - pass
  {
    var r := BackwardRunFrom(e, tree, pass, relevant, acc);
    if pass < MaxPasses {
      var st := Pass(e, tree, relevant);
      var acc' := AddUnseen(acc, st.nodes);
      AddUnseenKeeps(acc, st.nodes);
      if st.relevant - relevant == {} && pass > 0 {
        assert r == BackwardRun(acc', relevant, pass + 1);
      } else {
        assert r == BackwardRunFrom(e, tree, pass + 1, st.relevant, acc');
        BackwardRunDistinct(e, tree, pass + 1, st.relevant, acc');
      }
    } else {
      assert r == BackwardRun(acc, relevant, pass);
    }
  }

  /** The nodes a backward visitor can report: lines of the target file at or
      above the target line, parameters, and nodes of the functions it follows
      calls into. */
  predicate AllAbove(e: Env, ns: seq<SliceNode>) {
    forall n :: n in ns ==> AboveNode(e, n)
  }

  /** Every pass, and so the whole collection, holds only such nodes. */
  lemma {:induction false} BackwardRunAbove(e: Env, tree: Module, pass: nat, relevant: set<string>, acc: Collected)
    requires e.direction == Backward && AllAbove(e, acc.nodes)
    ensures AllAbove(e, BackwardRunFrom(e, tree, pass, relevant, acc).collected.nodes)
    decreases MaxPasses - pass
  {
    var r := BackwardRunFrom(e, tree, pass, relevant, acc);
    if pass < MaxPasses {
      var st := Pass(e, tree, relevant);
      var acc' := AddUnseen(acc, st.nodes);
      BackwardAboveStmts(e, PassState(e.targetVar, relevant), tree.body);
      assert forall n :: n in st.nodes ==> exists i :: 0 <= i < |st.nodes| && st.nodes[i] == n;
      AddUnseenFrom(acc, st.nodes);
      if st.relevant - relevant == {} && pass > 0 {
        assert r == BackwardRun(acc', relevant, pass + 1);
      } else {
        assert r == BackwardRunFrom(e, tree, pass + 1, st.relevant, acc');
        BackwardRunAbove(e, tree, pass + 1, st.relevant, acc');
      }
    } else {
      assert r == BackwardRun(acc, relevant, pass);
    }
  }

  /** Python orders `(file, line)` tuples: by file name, then by line. */
  predicate FileLineLe(a: SliceNode, b: SliceNode) {
    (a.file != b.file && StrLe(a.file, b.file)) || (a.file == b.file && a.line <= b.line)
  }

  lemma FileLineTotalPreorder()
    ensures TotalPreorder(FileLineLe)
  {
    forall a, b ensures FileLineLe(a, b) || FileLineLe(b, a) {
      StrLeTotal(a.file, b.file);
    }
    forall a, b, c | FileLineLe(a, b) && FileLineLe(b, c) ensures FileLineLe(a, c) {
      if a.file != b.file && b.file != c.file {
        StrLeTrans(a.file, b.file, c.file);
        if a.file == c.file {
          StrLeAntisym(a.file, b.file);
        }
      }
    }
  }

  // ---------------------------------------------------------------------------
  // ordering the forward slice

  /** `list.index(x)`: the first position holding a value equal to `x`. */
  function IndexOf(xs: seq<SliceNode>, x: SliceNode): (r: nat)
    requires x in xs
    ensures r < |xs| && xs[r] == x && forall j :: 0 <= j < r ==> xs[j] != x
  {
    if xs[0] == x then 0 else 1 + IndexOf(xs[1..], x)
  }

  /** The forward sort key as written: nodes of the target file by line, then the
      others by the position of the first node equal to them. */
  function ForwardKey(nodes: seq<SliceNode>, targetFile: string, n: SliceNode): (int, int) {
    if n.file == targetFile then (0, n.line)
    else if n in nodes then (1, IndexOf(nodes, n)) else (1, 0)
  }

  function ForwardKeyLe(nodes: seq<SliceNode>, targetFile: string): (SliceNode, SliceNode) -> bool {
    (a: SliceNode, b: SliceNode) =>
      var ka := ForwardKey(nodes, targetFile, a);
      var kb := ForwardKey(nodes, targetFile, b);
      ka.0 < kb.0 || (ka.0 == kb.0 && ka.1 <= kb.1)
  }

  /** `sorted(forward_visitor.nodes, key=sort_key)`, as the source writes it. */
  function ForwardOrderAsWritten(nodes: seq<SliceNode>, targetFile: string): seq<SliceNode> {
    SortBy(nodes, ForwardKeyLe(nodes, targetFile))
  }

  function InFile(ns: seq<SliceNode>, file: string): (r: seq<SliceNode>)
    ensures forall n :: n in r ==> n.file == file
    decreases |ns|
  {
    if ns == [] then []
    else InFile(ns[..|ns| - 1], file) + (if ns[|ns| - 1].file == file then [ns[|ns| - 1]] else [])
  }

  function NotInFile(ns: seq<SliceNode>, file: string): (r: seq<SliceNode>)
    ensures forall n :: n in r ==> n.file != file
    decreases |ns|
  {
    if ns == [] then []
    else NotInFile(ns[..|ns| - 1], file) + (if ns[|ns| - 1].file != file then [ns[|ns| - 1]] else [])
  }

  predicate LineLe(a: SliceNode, b: SliceNode) {
    a.line <= b.line
  }

  /** The order the forward sort is meant to produce: target-file nodes by line,
      then every other node in the order it was found. */
  function ForwardOrder(nodes: seq<SliceNode>, targetFile: string): seq<SliceNode> {
    SortBy(InFile(nodes, targetFile), LineLe) + NotInFile(nodes, targetFile)
  }

  lemma {:induction false} SplitByFile(ns: seq<SliceNode>, file: string)
    ensures multiset(InFile(ns, file)) + multiset(NotInFile(ns, file)) == multiset(ns)
    decreases |ns|
  {
    if ns != [] {
      var n := |ns| - 1;
      SplitByFile(ns[..n], file);
      assert ns == ns[..n] + [ns[n]];
    }
  }

  /** The intended forward order is a permutation of the visitor's nodes that puts
      the target file's nodes first, sorted by line, and keeps the others in the
      order they were found. */
  lemma ForwardOrderIntended(nodes: seq<SliceNode>, targetFile: string)
    ensures var r := ForwardOrder(nodes, targetFile);
      && multiset(r) == multiset(nodes)
      && |InFile(nodes, targetFile)| <= |r|
      && (forall i :: 0 <= i < |InFile(nodes, targetFile)| ==> r[i].file == targetFile)
      && SortedBy(r[..|InFile(nodes, targetFile)|], LineLe)
      && r[|InFile(nodes, targetFile)|..] == NotInFile(nodes, targetFile)
  {
    var t := InFile(nodes, targetFile);
    var s := SortBy(t, LineLe);
    var r := ForwardOrder(nodes, targetFile);
    SplitByFile(nodes, targetFile);
    SortBySorted(t, LineLe);
    assert r[..|t|] == s;
    forall i | 0 <= i < |t| ensures r[i].file == targetFile {
      assert r[i] in multiset(s);
      assert r[i] in t;
    }
  }

  /** Two distinct nodes of another file, each found twice (a callee reached
      from two call sites), are grouped by the written key: `A, B, A, B` comes
      out as `A, A, B, B`, where insertion order is `A, B, A, B`. */
  lemma ForwardOrderGroupsDuplicates(a: SliceNode, b: SliceNode, targetFile: string)
    requires a != b && a.file != targetFile && b.file != targetFile
    ensures ForwardOrderAsWritten([a, b, a, b], targetFile) == [a, a, b, b]
    ensures ForwardOrder([a, b, a, b], targetFile) == [a, b, a, b]
  {
    var ns := [a, b, a, b];
    var le := ForwardKeyLe(ns, targetFile);
    WrittenKeys(a, b, targetFile);
    InsertionSteps(a, b, le);
    KeptOrder(a, b, targetFile);
  }

  lemma WrittenKeys(a: SliceNode, b: SliceNode, targetFile: string)
    requires a != b && a.file != targetFile && b.file != targetFile
    ensures var le := ForwardKeyLe([a, b, a, b], targetFile);
      le(a, b) && !le(b, a) && le(a, a) && le(b, b)
  {
    var ns := [a, b, a, b];
    assert IndexOf(ns, a) == 0;
    assert ns[1..] == [b, a, b];
    assert IndexOf(ns[1..], b) == 0;
    assert IndexOf(ns, b) == 1;
  }

  lemma InsertionSteps(a: SliceNode, b: SliceNode, le: (SliceNode, SliceNode) -> bool)
    requires le(a, b) && !le(b, a) && le(a, a) && le(b, b)
    ensures SortBy([a, b, a, b], le) == [a, a, b, b]
  {
    assert [a, b, a, b][1..] == [b, a, b];
    assert [b, a, b][1..] == [a, b];
    assert [a, b][1..] == [b];
    assert [b][1..] == [];
    assert SortBy([b], le) == [b];
    assert SortBy([a, b], le) == [a, b];
    assert Insert(b, [b], le) == [b, b];
    assert [a, b][1..] == [b];
    assert Insert(b, [a, b], le) == [a, b, b];
    assert SortBy([b, a, b], le) == [a, b, b];
  }

  lemma KeptOrder(a: SliceNode, b: SliceNode, targetFile: string)
    requires a.file != targetFile && b.file != targetFile
    ensures ForwardOrder([a, b, a, b], targetFile) == [a, b, a, b]
  {
    NoneInFile([a, b, a, b], targetFile);
  }

  lemma {:induction false} NoneInFile(ns: seq<SliceNode>, file: string)
    requires forall i :: 0 <= i < |ns| ==> ns[i].file != file
    ensures InFile(ns, file) == [] && NotInFile(ns, file) == ns
    decreases |ns|
  {
    if ns != [] {
      var init := ns[..|ns| - 1];
      NoneInFile(init, file);
      assert ns == init + [ns[|ns| - 1]];
    }
  }

  /** When every node is in the target file, the written key is the line, so the
      written order and the intended one are the same. */
  lemma ForwardOrderAgrees(nodes: seq<SliceNode>, targetFile: string)
    requires forall n :: n in nodes ==> n.file == targetFile
    ensures ForwardOrderAsWritten(nodes, targetFile) == ForwardOrder(nodes, targetFile)
  {
    AllInFile(nodes, targetFile);
    SortByCongruent(nodes, ForwardKeyLe(nodes, targetFile), LineLe);
  }

  lemma {:induction false} AllInFile(ns: seq<SliceNode>, file: string)
    requires forall i :: 0 <= i < |ns| ==> ns[i].file == file
    ensures InFile(ns, file) == ns && NotInFile(ns, file) == []
    decreases |ns|
  {
    if ns != [] {
      var init := ns[..|ns| - 1];
      AllInFile(init, file);
      assert ns == init + [ns[|ns| - 1]];
    }
  }

  // ---------------------------------------------------------------------------
  // one slice

  datatype SliceError = CannotRead | CannotParse

  /** `self.root_path / file_path` when that exists, else the path as given,
      which is taken relative to the working directory. */
  function FullPath(fs: FileSystem, root: Path, filePath: Path): Path {
    if root + filePath in fs.existing then root + filePath else fs.cwd + filePath
  }

  /** The environment of the visitors of one slice. */
  function SliceEnv(fs: FileSystem, root: Path, crossFile: bool, listing: Listing, filePath: Path,
                    line: int, variable: string, direction: SliceDirection, tree: Module, text: string): Env {
    var full := FullPath(fs, root, filePath);
    Env(variable, line, direction, SplitOn(text, '\n'), FileName(filePath),
        if crossFile then ImportMapOf(fs, root, Walk(tree), full) else map[],
        crossFile, if crossFile then fs else NoFiles, FunctionDefsOf(Walk(tree)), listing)
  }

  /** The backward passes from the target variable, sorted by file and line. */
  function BackwardSlice(e: Env, tree: Module): seq<SliceNode> {
    SortBy(BackwardRunFrom(e, tree, 0, {e.targetVar}, Collected([], {})).collected.nodes, FileLineLe)
  }

  /** One forward pass, in the forward order. */
  function ForwardSlice(e: Env, tree: Module): seq<SliceNode> {
    ForwardOrder(VisitorModel.VisitModule(e, InitialState(e.targetVar, Forward), tree).nodes, e.currentFile)
  }

  /** `Slicer.slice`: an unreadable file or one that does not parse is an error;
      otherwise the backward and forward slices the direction asks for. */
  function SliceOf(fs: FileSystem, root: Path, crossFile: bool, listing: Listing, filePath: Path,
                   line: int, variable: string, direction: SliceDirection): Result<SliceResult, SliceError>
  {
    var full := FullPath(fs, root, filePath);
    if full !in fs.text then Err(CannotRead)
    else if full !in fs.trees then Err(CannotParse)
    else
      var tree := fs.trees[full];
      var text := fs.text[full];
      var backward :=
        if direction == Forward then []
        else BackwardSlice(SliceEnv(fs, root, crossFile, listing, filePath, line, variable, Backward, tree, text), tree);
      var forward :=
        if direction == Backward then []
        else ForwardSlice(SliceEnv(fs, root, crossFile, listing, filePath, line, variable, Forward, tree, text), tree);
      Ok(SliceResult(FileName(filePath), line, variable, backward, forward))
  }

  /** A slice holds the slices its direction asks for: a backward slice sorted by
      file and line with no two nodes sharing file, line, variable and operation,
      and a forward slice that is a permutation of what the forward visitor found. */
  lemma SliceShape(fs: FileSystem, root: Path, crossFile: bool, listing: Listing, filePath: Path,
                   line: int, variable: string, direction: SliceDirection)
    ensures var r := SliceOf(fs, root, crossFile, listing, filePath, line, variable, direction);
      var full := FullPath(fs, root, filePath);
      && (r.Ok? <==> full in fs.text && full in fs.trees)
      && (r.Ok? ==>
            && r.value.targetFile == FileName(filePath) && r.value.targetLine == line
            && r.value.targetVariable == variable
            && (direction == Forward ==> r.value.backwardSlice == [])
            && (direction == Backward ==> r.value.forwardSlice == [])
            && SortedBy(r.value.backwardSlice, FileLineLe)
            && DistinctKeys(r.value.backwardSlice)
            && (direction != Backward ==>
                  var e := SliceEnv(fs, root, crossFile, listing, filePath, line, variable, Forward,
                                    fs.trees[full], fs.text[full]);
                  multiset(r.value.forwardSlice)
                  == multiset(VisitorModel.VisitModule(e, InitialState(variable, Forward), fs.trees[full]).nodes)))
  {
    var r := SliceOf(fs, root, crossFile, listing, filePath, line, variable, direction);
    var full := FullPath(fs, root, filePath);
    if r.Ok? && direction != Forward {
      var tree := fs.trees[full];
      var e := SliceEnv(fs, root, crossFile, listing, filePath, line, variable, Backward, tree, fs.text[full]);
      var run := BackwardRunFrom(e, tree, 0, {e.targetVar}, Collected([], {}));
      BackwardRunDistinct(e, tree, 0, {e.targetVar}, Collected([], {}));
      FileLineTotalPreorder();
      SortBySorted(run.collected.nodes, FileLineLe);
      SortByDistinct(run.collected.nodes, FileLineLe, KeyOf);
    }
    if r.Ok? && direction != Backward {
      var tree := fs.trees[full];
      var e := SliceEnv(fs, root, crossFile, listing, filePath, line, variable, Forward, tree, fs.text[full]);
      ForwardOrderIntended(VisitorModel.VisitModule(e, InitialState(variable, Forward), tree).nodes, e.currentFile);
    }
  }

  /** Without cross-file analysis the forward visitor follows no call, so every
      forward node is in the target file and the forward slice is exactly what
      the written sort key produces. */
  lemma ForwardSliceAsWritten(fs: FileSystem, root: Path, listing: Listing, filePath: Path,
                              line: int, variable: string, tree: Module, text: string)
    ensures var e := SliceEnv(fs, root, false, listing, filePath, line, variable, Forward, tree, text);
      ForwardSlice(e, tree)
      == ForwardOrderAsWritten(VisitorModel.VisitModule(e, InitialState(variable, Forward), tree).nodes, e.currentFile)
  {
    var e := SliceEnv(fs, root, false, listing, filePath, line, variable, Forward, tree, text);
    var st := InitialState(variable, Forward);
    var r := VisitStmts(e, st, tree.body);
    ForwardDirectStmts(e, st, tree.body);
    assert ForwardSites(e) == {};
    forall n | n in r.nodes
      ensures n.file == e.currentFile
    {
      var i :| 0 <= i < |r.nodes| && r.nodes[i] == n;
      assert ForwardNode(e, r, r.nodes[i]);
    }
    ForwardOrderAgrees(r.nodes, e.currentFile);
  }

  // ---------------------------------------------------------------------------
  // the slicer object

  /** The inner loop of `slice`'s backward passes: each node is added unless its
      key was seen, and its key is then seen. */
  method AddNewNodes(allNodes: seq<SliceNode>, seenKeys: set<NodeKey>, nodes: seq<SliceNode>)
    returns (allNodes': seq<SliceNode>, seenKeys': set<NodeKey>)
    ensures Collected(allNodes', seenKeys') == AddUnseen(Collected(allNodes, seenKeys), nodes)
  {
    allNodes', seenKeys' := allNodes, seenKeys;
    for i := 0 to |nodes|
      invariant Collected(allNodes', seenKeys') == AddUnseen(Collected(allNodes, seenKeys), nodes[..i])
    {
      assert nodes[..i + 1][..i] == nodes[..i];
      var node := nodes[i];
      var key := KeyOf(node);
      if key !in seenKeys' {
        seenKeys' := seenKeys' + {key};
        allNodes' := allNodes' + [node];
      }
    }
    assert nodes[..|nodes|] == nodes;
  }

  class Slicer {
    const rootPath: Path
    const enableCrossFile: bool
    const importResolver: ImportResolver?
    /** The disk the slicer reads. */
    const fs: FileSystem
    const listing: Listing
    var functionDefs: map<string, FuncDef>

    ghost predicate Valid()
      reads this, importResolver
    {
      && (importResolver != null <==> enableCrossFile)
      && (importResolver != null ==> importResolver.Valid() && importResolver.fs == fs && importResolver.root == rootPath)
    }

    constructor(rootPath: Path, enableCrossFile: bool, fs: FileSystem, listing: Listing)
      ensures Valid()
      ensures this.rootPath == rootPath && this.enableCrossFile == enableCrossFile
      ensures this.fs == fs && this.listing == listing && functionDefs == map[]
      ensures importResolver != null ==> fresh(importResolver) && importResolver.astCache == map[]
    {
      this.rootPath := rootPath;
      this.enableCrossFile := enableCrossFile;
      this.fs := fs;
      this.listing := listing;
      if enableCrossFile {
        importResolver := new ImportResolver(rootPath, fs);
      } else {
        importResolver := null;
      }
      functionDefs := map[];
    }

    /** `_find_function_definitions`. */
    method FindFunctionDefinitions(tree: Module) returns (functions: map<string, FuncDef>)
      ensures functions == FunctionDefsOf(Walk(tree))
    {
      functions := map[];
      var walked := Walk(tree);
      for i := 0 to |walked|
        invariant functions == FunctionDefsOf(walked[..i])
      {
        FunctionDefsStep(walked, i);
        var node := walked[i];
        if node.FunctionDef? {
          functions := functions[node.name := node];
        }
      }
      assert walked[..|walked|] == walked;
    }

    /** `slice`. */
    method Slice(filePath: Path, line: int, variable: string, direction: SliceDirection)
      returns (r: Result<SliceResult, SliceError>)
      requires Valid()
      modifies this, importResolver
      ensures Valid()
      ensures r == SliceOf(fs, rootPath, enableCrossFile, listing, filePath, line, variable, direction)
    {
      var fullPath := rootPath + filePath;
      if fullPath !in fs.existing {
        fullPath := fs.cwd + filePath;
      }
      if fullPath !in fs.text {
        return Err(CannotRead);
      }
      var source := fs.text[fullPath];
      var sourceLines := SplitOn(source, '\n');
      if fullPath !in fs.trees {
        return Err(CannotParse);
      }
      var tree := fs.trees[fullPath];
      functionDefs := FindFunctionDefinitions(tree);
      var imports: ImportMap := map[];
      if importResolver != null {
        imports := importResolver.ParseImports(tree, fullPath);
      }
      var backward: seq<SliceNode> := [];
      var forward: seq<SliceNode> := [];
      if direction == Backward || direction == Both {
        var allNodes := SliceBackward(tree, sourceLines, FileName(filePath), imports, line, variable);
        backward := SortBy(allNodes, FileLineLe);
      }
      if direction == Forward || direction == Both {
        var visitor := new SlicerVisitor(variable, line, Forward, sourceLines, FileName(filePath), imports,
                                         importResolver, functionDefs, listing);
        visitor.VisitModule(tree);
        forward := ForwardOrder(visitor.nodes, FileName(filePath));
      }
      return Ok(SliceResult(FileName(filePath), line, variable, backward, forward));
    }

    /** The multi-pass loop of `slice`: a fresh backward visitor per pass, starting
        from the names accumulated so far, its new nodes added unless their key was
        seen, until a pass after the first finds no new name or ten passes ran. */
    method SliceBackward(tree: Module, sourceLines: seq<string>, currentFile: string, imports: ImportMap,
                         line: int, variable: string)
      returns (allNodes: seq<SliceNode>)
      requires Valid()
      modifies importResolver
      ensures Valid()
      ensures var e := VisitorModel.Env(variable, line, Backward, sourceLines, currentFile, imports, enableCrossFile,
                                        if enableCrossFile then fs else NoFiles, functionDefs, listing);
        allNodes == BackwardRunFrom(e, tree, 0, {variable}, Collected([], {})).collected.nodes
    {
      ghost var e := VisitorModel.Env(variable, line, Backward, sourceLines, currentFile, imports, enableCrossFile,
                                      if enableCrossFile then fs else NoFiles, functionDefs, listing);
      ghost var goal := BackwardRunFrom(e, tree, 0, {variable}, Collected([], {}));
      allNodes := [];
      var seenKeys: set<NodeKey> := {};
      var relevantVars := {variable};
      for passNum := 0 to MaxPasses
        invariant Valid()
        invariant BackwardRunFrom(e, tree, passNum, relevantVars, Collected(allNodes, seenKeys)) == goal
      {
        var backwardVisitor := new SlicerVisitor(variable, line, Backward, sourceLines, currentFile, imports,
                                                 importResolver, functionDefs, listing);
        backwardVisitor.relevantVars := relevantVars;
        assert backwardVisitor.Env() == e;
        assert backwardVisitor.State() == PassState(variable, relevantVars);
        backwardVisitor.VisitModule(tree);
        allNodes, seenKeys := AddNewNodes(allNodes, seenKeys, backwardVisitor.nodes);
        var newVars := backwardVisitor.relevantVars - relevantVars;
        if newVars == {} && passNum > 0 {
          assert allNodes == goal.collected.nodes;
          break;
        }
        relevantVars := backwardVisitor.relevantVars;
      }
    }
  }
}
