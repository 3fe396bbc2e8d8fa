/** The tree formatter's merge of slice nodes that share a `(file, line)`: one
    node per line in order of first occurrence, later occurrences folded into
    it (their dependencies united, their differing operations noted). */
module TreeMerge {
  import opened Wrappers
  import opened Strings
  import opened Sorting
  import opened SortedSets
  import opened Models
  import Slicing

  // ---------------------------------------------------------------------------
  // the merge, as a function of the input

  function LineKey(n: SliceNode): (string, int) {
    (n.file, n.line)
  }

  /** The first position of `m` whose node has key `k`. */
  function KeyIndex(m: seq<SliceNode>, k: (string, int)): (r: Option<nat>)
    ensures r.Some? ==> r.value < |m| && LineKey(m[r.value]) == k
    ensures r.Some? ==> forall j :: 0 <= j < r.value ==> LineKey(m[j]) != k
    ensures r.None? ==> forall j :: 0 <= j < |m| ==> LineKey(m[j]) != k
  {
    if m == [] then None
    else if LineKey(m[0]) == k then Some(0)
    else match KeyIndex(m[1..], k) {
      case None => None
      case Some(i) => Some(i + 1)
    }
  }

  /** Python's truth value of an optional string: absent or empty is false. */
  predicate Blank(c: Option<string>) {
    c.None? || c.value == ""
  }

  /** What a later occurrence `n` does to the kept node: its dependencies join,
      and a different non-empty operation is noted in the context. */
  function Absorb(kept: SliceNode, n: SliceNode): SliceNode {
    var deps := SortedUnique(kept.dependencies + n.dependencies);
    var context :=
      if n.operation != "" && n.operation != kept.operation then
        if Blank(kept.context) then Some("Also: " + n.operation)
        else Some(kept.context.value + ", " + n.operation)
      else kept.context;
    kept.(dependencies := deps, context := context)
  }

  /** `_merge_nodes_by_line` on the values of the nodes. */
  function MergeByLine(nodes: seq<SliceNode>): seq<SliceNode>
    decreases |nodes|
  {
    if nodes == [] then []
    else
      var m := MergeByLine(nodes[..|nodes| - 1]);
      var x := nodes[|nodes| - 1];
      match KeyIndex(m, LineKey(x)) {
        case None => m + [x]
        case Some(i) => m[i := Absorb(m[i], x)]
      }
  }

  /** The nodes that are the first of their key, in input order. */
  function FirstOccurrences(nodes: seq<SliceNode>): seq<SliceNode>
    decreases |nodes|
  {
    if nodes == [] then []
    else
      var f := FirstOccurrences(nodes[..|nodes| - 1]);
      var x := nodes[|nodes| - 1];
      if KeyIndex(f, LineKey(x)).None? then f + [x] else f
  }

  /** Two nodes agree on everything the merge keeps from the first occurrence. */
  predicate SameHead(a: SliceNode, b: SliceNode) {
    a.file == b.file && a.line == b.line && a.func == b.func && a.code == b.code
    && a.variable == b.variable && a.operation == b.operation
  }

  predicate SameHeads(m: seq<SliceNode>, f: seq<SliceNode>) {
    |m| == |f| && forall i :: 0 <= i < |m| ==> SameHead(m[i], f[i])
  }

  ghost predicate DistinctLineKeys(m: seq<SliceNode>) {
    DistinctBy(m, LineKey)
  }

  lemma SameHeadsDistinct(m: seq<SliceNode>, f: seq<SliceNode>)
    requires SameHeads(m, f) && DistinctLineKeys(f)
    ensures DistinctLineKeys(m)
  {
    assert forall i :: 0 <= i < |m| ==> LineKey(m[i]) == LineKey(f[i]);
  }

  lemma {:induction false} KeyIndexSameHeads(m: seq<SliceNode>, f: seq<SliceNode>, k: (string, int))
    requires SameHeads(m, f)
    ensures KeyIndex(m, k) == KeyIndex(f, k)
    decreases |m|
  {
    if m != [] && LineKey(m[0]) != k {
      KeyIndexSameHeads(m[1..], f[1..], k);
    }
  }

  /** The merge keeps, position by position, the head of each first occurrence. */
  lemma {:induction false} MergeHeads(nodes: seq<SliceNode>)
    ensures SameHeads(MergeByLine(nodes), FirstOccurrences(nodes))
    decreases |nodes|
  {
    if nodes != [] {
      var p := nodes[..|nodes| - 1];
      var x := nodes[|nodes| - 1];
      MergeHeads(p);
      KeyIndexSameHeads(MergeByLine(p), FirstOccurrences(p), LineKey(x));
    }
  }

  /** First occurrences have distinct keys, and there are no more of them than nodes. */
  lemma {:induction false} FirstDistinct(nodes: seq<SliceNode>)
    ensures DistinctLineKeys(FirstOccurrences(nodes)) && |FirstOccurrences(nodes)| <= |nodes|
    decreases |nodes|
  {
    if nodes != [] {
      FirstDistinct(nodes[..|nodes| - 1]);
    }
  }

  /** Every node's key is the key of some first occurrence. */
  lemma {:induction false} FirstCovers(nodes: seq<SliceNode>)
    ensures forall j :: 0 <= j < |nodes| ==> KeyIndex(FirstOccurrences(nodes), LineKey(nodes[j])).Some?
    decreases |nodes|
  {
    if nodes != [] {
      var p := nodes[..|nodes| - 1];
      var x := nodes[|nodes| - 1];
      FirstCovers(p);
      var fp := FirstOccurrences(p);
      var f := FirstOccurrences(nodes);
      assert fp <= f;
      forall j | 0 <= j < |nodes| ensures KeyIndex(f, LineKey(nodes[j])).Some? {
        if j < |p| {
          assert nodes[j] == p[j];
          var t := KeyIndex(fp, LineKey(p[j])).value;
          assert f[t] == fp[t];
        } else if KeyIndex(fp, LineKey(x)).None? {
          assert LineKey(f[|fp|]) == LineKey(x);
        }
      }
    }
  }

  /** `n` sits at position `j` of `nodes`, and no earlier node has its key. */
  ghost predicate FirstAt(nodes: seq<SliceNode>, j: int, n: SliceNode) {
    0 <= j < |nodes| && nodes[j] == n && forall q :: 0 <= q < j ==> LineKey(nodes[q]) != LineKey(n)
  }

  /** `n` is a node of `nodes` with no earlier node of its key. */
  ghost predicate OccursFirst(nodes: seq<SliceNode>, n: SliceNode) {
    exists j :: FirstAt(nodes, j, n)
  }

  /** Each first occurrence is a node of the input with no earlier node of its key. */
  lemma {:induction false} FirstAreFirst(nodes: seq<SliceNode>)
    ensures forall i :: 0 <= i < |FirstOccurrences(nodes)| ==> OccursFirst(nodes, FirstOccurrences(nodes)[i])
    decreases |nodes|
  {
    if nodes != [] {
      var p := nodes[..|nodes| - 1];
      var x := nodes[|nodes| - 1];
      FirstAreFirst(p);
      FirstCovers(p);
      forall i | 0 <= i < |FirstOccurrences(nodes)| ensures OccursFirst(nodes, FirstOccurrences(nodes)[i]) {
        if i < |FirstOccurrences(p)| {
          var j :| FirstAt(p, j, FirstOccurrences(p)[i]);
          assert FirstOccurrences(nodes)[i] == FirstOccurrences(p)[i] && nodes[j] == p[j];
          assert forall q :: 0 <= q < j ==> nodes[q] == p[q];
          assert FirstAt(nodes, j, FirstOccurrences(nodes)[i]);
        } else {
          assert FirstOccurrences(nodes)[i] == x;
          forall q | 0 <= q < |p| ensures LineKey(nodes[q]) != LineKey(x) {
            assert nodes[q] == p[q];
            var t := KeyIndex(FirstOccurrences(p), LineKey(p[q])).value;
          }
          assert FirstAt(nodes, |p|, FirstOccurrences(nodes)[i]);
        }
      }
    }
  }

  /** The merge has one node per distinct key, the first occurrence of that key,
      in order of first occurrence, keeping its file, line, function, code,
      variable and operation; it is no longer than its input. */
  lemma MergeShape(nodes: seq<SliceNode>)
    ensures var r := MergeByLine(nodes);
      var f := FirstOccurrences(nodes);
      && SameHeads(r, f) && DistinctLineKeys(r) && |r| <= |nodes|
      && (forall j :: 0 <= j < |nodes| ==> KeyIndex(f, LineKey(nodes[j])).Some?)
      && (forall i :: 0 <= i < |f| ==> OccursFirst(nodes, f[i]))
  {
    MergeHeads(nodes);
    FirstDistinct(nodes);
    SameHeadsDistinct(MergeByLine(nodes), FirstOccurrences(nodes));
    FirstCovers(nodes);
    FirstAreFirst(nodes);
  }

  /** How many nodes have key `k`. */
  function Count(nodes: seq<SliceNode>, k: (string, int)): nat
    decreases |nodes|
  {
    if nodes == [] then 0
    else Count(nodes[..|nodes| - 1], k) + (if LineKey(nodes[|nodes| - 1]) == k then 1 else 0)
  }

  /** Some node with key `k` depends on `d`. */
  predicate DepOf(nodes: seq<SliceNode>, k: (string, int), d: string) {
    exists j :: 0 <= j < |nodes| && LineKey(nodes[j]) == k && d in nodes[j].dependencies
  }

  lemma DepOfSnoc(nodes: seq<SliceNode>, k: (string, int), d: string)
    requires nodes != []
    ensures var last := nodes[|nodes| - 1];
      DepOf(nodes, k, d) <==> DepOf(nodes[..|nodes| - 1], k, d) || (LineKey(last) == k && d in last.dependencies)
  {
    var p := nodes[..|nodes| - 1];
    if DepOf(p, k, d) {
      var j :| 0 <= j < |p| && LineKey(p[j]) == k && d in p[j].dependencies;
      assert nodes[j] == p[j];
    }
    if DepOf(nodes, k, d) {
      var j :| 0 <= j < |nodes| && LineKey(nodes[j]) == k && d in nodes[j].dependencies;
      if j < |p| {
        assert nodes[j] == p[j];
      }
    }
  }

  /** The non-empty operations, among the nodes with key `k`, that differ from
      `op`, in order. */
  function OtherOperations(nodes: seq<SliceNode>, k: (string, int), op: string): (r: seq<string>)
    ensures forall o :: o in r ==> o != "" && o != op
    decreases |nodes|
  {
    if nodes == [] then []
    else
      var x := nodes[|nodes| - 1];
      OtherOperations(nodes[..|nodes| - 1], k, op)
      + (if LineKey(x) == k && x.operation != "" && x.operation != op then [x.operation] else [])
  }

  lemma {:induction false} AbsentKey(nodes: seq<SliceNode>, k: (string, int), op: string)
    requires forall j :: 0 <= j < |nodes| ==> LineKey(nodes[j]) != k
    ensures Count(nodes, k) == 0 && OtherOperations(nodes, k, op) == []
    ensures forall d :: !DepOf(nodes, k, d)
    decreases |nodes|
  {
    if nodes != [] {
      AbsentKey(nodes[..|nodes| - 1], k, op);
      forall d ensures !DepOf(nodes, k, d) {
        DepOfSnoc(nodes, k, d);
      }
    }
  }

  /** A node's dependencies: a key seen once keeps its list untouched; a key seen
      more than once ends with the strictly increasing list of every dependency
      of every occurrence. */
  lemma {:induction false} MergeDependencies(nodes: seq<SliceNode>, i: nat)
    requires i < |FirstOccurrences(nodes)|
    ensures var r := MergeByLine(nodes);
      var f := FirstOccurrences(nodes);
      var k := LineKey(f[i]);
      && |r| == |f| && Count(nodes, k) >= 1
      && (forall d :: d in r[i].dependencies <==> DepOf(nodes, k, d))
      && (Count(nodes, k) == 1 ==> r[i].dependencies == f[i].dependencies)
      && (Count(nodes, k) >= 2 ==> StrictlySorted(r[i].dependencies))
    decreases |nodes|
  {
    var p := nodes[..|nodes| - 1];
    var x := nodes[|nodes| - 1];
    var m := MergeByLine(p);
    var fp := FirstOccurrences(p);
    var f := FirstOccurrences(nodes);
    var r := MergeByLine(nodes);
    MergeShape(p);
    MergeShape(nodes);
    KeyIndexSameHeads(m, fp, LineKey(x));
    var k := LineKey(f[i]);
    forall d ensures DepOf(nodes, k, d) <==> DepOf(p, k, d) || (LineKey(x) == k && d in x.dependencies) {
      DepOfSnoc(nodes, k, d);
    }
    if i == |fp| {
      // `x` is the first node with its key
      assert KeyIndex(fp, LineKey(x)).None? && f[i] == x && r[i] == x;
      AbsentKey(p, k, x.operation);
    } else {
      assert f[i] == fp[i];
      MergeDependencies(p, i);
      match KeyIndex(m, LineKey(x)) {
        case None =>
          assert r[i] == m[i];
        case Some(t) =>
          if t == i {
            SortedUniqueSpec(m[i].dependencies + x.dependencies);
          } else {
            assert r[i] == m[i];
          }
      }
    }
  }

  /** How a note starts: "Also: " when there was no context, else the context
      followed by ", ". */
  function NotePrefix(c0: Option<string>): (r: string)
    ensures r != ""
  {
    if Blank(c0) then "Also: " else c0.value + ", "
  }

  /** The operations, separated by ", ". */
  function JoinNotes(ops: seq<string>): string
    requires ops != []
    decreases |ops|
  {
    if |ops| == 1 then ops[0] else JoinNotes(ops[..|ops| - 1]) + ", " + ops[|ops| - 1]
  }

  /** The context `c`, grown from `c0` by the operations `ops`: untouched when
      there are none, else `c0`'s prefix followed by all of them, separated by ", ". */
  predicate ContextNote(c: Option<string>, c0: Option<string>, ops: seq<string>) {
    if ops == [] then c == c0 else c == Some(NotePrefix(c0) + JoinNotes(ops))
  }

  lemma AbsorbNote(kept: SliceNode, x: SliceNode, c0: Option<string>, ops: seq<string>)
    requires ContextNote(kept.context, c0, ops)
    ensures ContextNote(Absorb(kept, x).context, c0,
                        ops + if x.operation != "" && x.operation != kept.operation then [x.operation] else [])
  {
    if x.operation != "" && x.operation != kept.operation {
      var o := x.operation;
      var ops' := ops + [o];
      assert ops'[..|ops'| - 1] == ops;
      if ops == [] {
        assert JoinNotes(ops') == o;
        assert kept.context == c0;
        if Blank(c0) {
          assert Absorb(kept, x).context == Some("Also: " + o);
        } else {
          assert Absorb(kept, x).context == Some(c0.value + ", " + o);
        }
      } else {
        var c := NotePrefix(c0) + JoinNotes(ops);
        assert kept.context == Some(c) && c != "";
        assert JoinNotes(ops') == JoinNotes(ops) + ", " + o;
        assert Absorb(kept, x).context == Some(c + ", " + o);
        assert c + ", " + o == NotePrefix(c0) + (JoinNotes(ops) + ", " + o);
      }
    } else {
      assert ops + [] == ops;
    }
  }

  /** A node's context is left alone unless a later occurrence has a different
      non-empty operation. Otherwise it is "Also: " (or the kept context and
      ", ") followed by every such operation, in order, separated by ", ". */
  lemma {:induction false} MergeContext(nodes: seq<SliceNode>, i: nat)
    requires i < |FirstOccurrences(nodes)|
    ensures |MergeByLine(nodes)| == |FirstOccurrences(nodes)|
    ensures ContextNote(MergeByLine(nodes)[i].context, FirstOccurrences(nodes)[i].context,
                        OtherOperations(nodes, LineKey(FirstOccurrences(nodes)[i]), FirstOccurrences(nodes)[i].operation))
    decreases |nodes|
  {
    MergeHeads(nodes);
    var p := nodes[..|nodes| - 1];
    if i == |FirstOccurrences(p)| {
      ContextOfNew(nodes);
    } else {
      MergeContext(p, i);
      ContextStep(nodes, i);
    }
  }

  /** The node just appended is its own first occurrence, and nothing came before it. */
  lemma ContextOfNew(nodes: seq<SliceNode>)
    requires nodes != [] && |FirstOccurrences(nodes[..|nodes| - 1])| < |FirstOccurrences(nodes)|
    requires |MergeByLine(nodes)| == |FirstOccurrences(nodes)|
    ensures var i := |FirstOccurrences(nodes[..|nodes| - 1])|;
      ContextNote(MergeByLine(nodes)[i].context, FirstOccurrences(nodes)[i].context,
                  OtherOperations(nodes, LineKey(FirstOccurrences(nodes)[i]), FirstOccurrences(nodes)[i].operation))
  {
    var p := nodes[..|nodes| - 1];
    var x := nodes[|nodes| - 1];
    var fp := FirstOccurrences(p);
    MergeHeads(p);
    MergeHeads(nodes);
    KeyIndexSameHeads(MergeByLine(p), fp, LineKey(x));
    var i := |fp|;
    assert KeyIndex(fp, LineKey(x)).None?;
    assert FirstOccurrences(nodes)[i] == x && MergeByLine(nodes)[i] == x;
    FirstCovers(p);
    forall j | 0 <= j < |p| ensures LineKey(p[j]) != LineKey(x) {
      var t := KeyIndex(fp, LineKey(p[j])).value;
    }
    AbsentKey(p, LineKey(x), x.operation);
  }

  /** One more node keeps an earlier first occurrence's note in shape. */
  lemma ContextStep(nodes: seq<SliceNode>, i: nat)
    requires nodes != [] && i < |FirstOccurrences(nodes[..|nodes| - 1])|
    requires var p := nodes[..|nodes| - 1];
      && |MergeByLine(p)| == |FirstOccurrences(p)|
      && ContextNote(MergeByLine(p)[i].context, FirstOccurrences(p)[i].context,
                     OtherOperations(p, LineKey(FirstOccurrences(p)[i]), FirstOccurrences(p)[i].operation))
    ensures |MergeByLine(nodes)| == |FirstOccurrences(nodes)| && i < |FirstOccurrences(nodes)|
    ensures ContextNote(MergeByLine(nodes)[i].context, FirstOccurrences(nodes)[i].context,
                        OtherOperations(nodes, LineKey(FirstOccurrences(nodes)[i]), FirstOccurrences(nodes)[i].operation))
  {
    var p := nodes[..|nodes| - 1];
    var x := nodes[|nodes| - 1];
    var m := MergeByLine(p);
    var fp := FirstOccurrences(p);
    MergeHeads(p);
    KeyIndexSameHeads(m, fp, LineKey(x));
    assert FirstOccurrences(nodes)[i] == fp[i];
    var k := LineKey(fp[i]);
    var op := fp[i].operation;
    var ops := OtherOperations(p, k, op);
    var r := MergeByLine(nodes);
    match KeyIndex(m, LineKey(x)) {
      case None =>
        assert r == m + [x];
        assert r[i] == m[i];
        assert LineKey(x) != k;
        assert OtherOperations(nodes, k, op) == ops;
      case Some(t) =>
        assert r == m[t := Absorb(m[t], x)];
        if t != i {
          FirstDistinct(p);
          assert LineKey(m[t]) == LineKey(fp[t]) && LineKey(m[i]) == LineKey(fp[i]);
          assert LineKey(x) != k;
          assert r[i] == m[i];
          assert OtherOperations(nodes, k, op) == ops;
        } else {
          assert SameHead(m[i], fp[i]);
          assert LineKey(x) == k;
          assert OtherOperations(nodes, k, op) ==
            ops + if x.operation != "" && x.operation != op then [x.operation] else [];
          AbsorbNote(m[i], x, fp[i].context, ops);
        }
    }
  }

  // ---------------------------------------------------------------------------
  // the merge in place

  /** The nodes the references point to. */
  function Deref(a: seq<SliceNode>, refs: seq<nat>): (r: seq<SliceNode>)
    requires forall t :: 0 <= t < |refs| ==> refs[t] < |a|
    ensures |r| == |refs| && forall t :: 0 <= t < |refs| ==> r[t] == a[refs[t]]
  {
    seq(|refs|, t requires 0 <= t < |refs| => a[refs[t]])
  }

  /** `seen` maps each key of `m` to its position, as the `seen_lines` dictionary does. */
  ghost predicate SeenIndex(seen: map<(string, int), nat>, m: seq<SliceNode>) {
    forall k :: (k in seen <==> KeyIndex(m, k).Some?) && (k in seen ==> seen[k] == KeyIndex(m, k).value)
  }

  lemma {:induction false} KeyIndexSnoc(m: seq<SliceNode>, x: SliceNode, k: (string, int))
    ensures KeyIndex(m + [x], k) ==
      if KeyIndex(m, k).Some? then KeyIndex(m, k) else if LineKey(x) == k then Some(|m|) else None
    decreases |m|
  {
    if m != [] && LineKey(m[0]) != k {
      assert (m + [x])[1..] == m[1..] + [x];
      KeyIndexSnoc(m[1..], x, k);
    }
  }

  lemma KeyIndexUpdate(m: seq<SliceNode>, t: nat, v: SliceNode, k: (string, int))
    requires t < |m| && LineKey(v) == LineKey(m[t])
    ensures KeyIndex(m[t := v], k) == KeyIndex(m, k)
  {
    var u := m[t := v];
    match KeyIndex(m, k) {
      case None =>
        assert forall j :: 0 <= j < |u| ==> LineKey(u[j]) != k;
      case Some(j) =>
        assert forall q :: 0 <= q < |u| ==> LineKey(u[q]) == LineKey(m[q]);
        KeyIndexFirst(u, j, k);
    }
  }

  /** A position holding key `k`, with no earlier one, is what `KeyIndex` finds. */
  lemma {:induction false} KeyIndexFirst(m: seq<SliceNode>, j: nat, k: (string, int))
    requires j < |m| && LineKey(m[j]) == k && forall q :: 0 <= q < j ==> LineKey(m[q]) != k
    ensures KeyIndex(m, k) == Some(j)
    decreases j
  {
    if j > 0 {
      KeyIndexFirst(m[1..], j - 1, k);
    }
  }

  lemma SeenAppend(seen: map<(string, int), nat>, m: seq<SliceNode>, x: SliceNode)
    requires SeenIndex(seen, m) && KeyIndex(m, LineKey(x)).None?
    ensures SeenIndex(seen[LineKey(x) := |m|], m + [x])
  {
    forall k ensures KeyIndex(m + [x], k) ==
      if KeyIndex(m, k).Some? then KeyIndex(m, k) else if LineKey(x) == k then Some(|m|) else None
    {
      KeyIndexSnoc(m, x, k);
    }
  }

  lemma SeenUpdate(seen: map<(string, int), nat>, m: seq<SliceNode>, t: nat, v: SliceNode)
    requires SeenIndex(seen, m) && t < |m| && LineKey(v) == LineKey(m[t])
    ensures SeenIndex(seen, m[t := v])
  {
    forall k ensures KeyIndex(m[t := v], k) == KeyIndex(m, k) {
      KeyIndexUpdate(m, t, v, k);
    }
  }

  /** The update of a kept node, one field after the other. */
  method AbsorbInto(existing: SliceNode, node: SliceNode) returns (updated: SliceNode)
    ensures updated == Absorb(existing, node)
    ensures SameHead(updated, existing)
    ensures forall d :: d in updated.dependencies <==> d in existing.dependencies || d in node.dependencies
  {
    var allDeps := existing.dependencies + node.dependencies;
    updated := existing.(dependencies := SortedUnique(allDeps));
    SortedUniqueSpec(allDeps);
    if node.operation != "" && node.operation != updated.operation {
      if updated.context.None? || updated.context.value == "" {
        updated := updated.(context := Some("Also: " + node.operation));
      } else {
        updated := updated.(context := Some(updated.context.value + ", " + node.operation));
      }
    }
  }

  ghost predicate Refs(merged: seq<nat>, bound: int) {
    && (forall t :: 0 <= t < |merged| ==> merged[t] < bound)
    && (forall t, u :: 0 <= t < u < |merged| ==> merged[t] < merged[u])
  }

  /** The state of `_merge_nodes_by_line` after the first `i` nodes: the
      caller's nodes `a`, once `input`, the list of references `merged` and
      the `seen_lines` dictionary. */
  ghost predicate MergeInv(a: seq<SliceNode>, input: seq<SliceNode>, merged: seq<nat>,
                           seen: map<(string, int), nat>, i: nat)
  {
    && |a| == |input| && i <= |input|
    && Refs(merged, i)
    && Deref(a, merged) == MergeByLine(input[..i])
    && SeenIndex(seen, MergeByLine(input[..i]))
    && (forall t :: 0 <= t < |merged| ==> SameHead(input[merged[t]], a[merged[t]]))
    && (forall j :: 0 <= j < |a| && j !in merged ==> a[j] == input[j])
  }

  lemma MergeInvStart(a: seq<SliceNode>)
    ensures MergeInv(a, a, [], map[], 0)
  {
    assert a[..0] == [];
  }

  /** A node whose key has not been seen is kept, as a new reference. */
  lemma MergeInvAppend(a: seq<SliceNode>, input: seq<SliceNode>, merged: seq<nat>,
                       seen: map<(string, int), nat>, i: nat)
    requires MergeInv(a, input, merged, seen, i) && i < |input|
    requires LineKey(a[i]) !in seen
    ensures MergeInv(a, input, merged + [i], seen[LineKey(a[i]) := |merged|], i + 1)
  {
    var cur := MergeByLine(input[..i]);
    assert i !in merged;
    assert input[..i + 1][..i] == input[..i];
    assert KeyIndex(cur, LineKey(input[i])).None?;
    assert MergeByLine(input[..i + 1]) == cur + [input[i]];
    SeenAppend(seen, cur, input[i]);
    assert |Deref(a, merged)| == |cur|;
    assert Deref(a, merged + [i]) == cur + [input[i]];
  }

  lemma MergeSnocSeen(input: seq<SliceNode>, i: nat, idx: nat)
    requires i < |input| && KeyIndex(MergeByLine(input[..i]), LineKey(input[i])) == Some(idx)
    ensures MergeByLine(input[..i + 1]) ==
      MergeByLine(input[..i])[idx := Absorb(MergeByLine(input[..i])[idx], input[i])]
  {
    assert input[..i + 1][..i] == input[..i];
  }

  lemma DerefUpdate(a: seq<SliceNode>, merged: seq<nat>, idx: nat, v: SliceNode)
    requires Refs(merged, |a|) && idx < |merged|
    ensures Deref(a[merged[idx] := v], merged) == Deref(a, merged)[idx := v]
  {
    var b := a[merged[idx] := v];
    forall t | 0 <= t < |merged| && t != idx ensures b[merged[t]] == a[merged[t]] {
      assert merged[t] != merged[idx];
    }
  }

  /** Replacing a referenced node by one with the same head keeps the frame. */
  lemma UpdateFrame(a: seq<SliceNode>, input: seq<SliceNode>, merged: seq<nat>, idx: nat, v: SliceNode)
    requires |a| == |input| && idx < |merged| && merged[idx] < |a|
    requires forall t :: 0 <= t < |merged| ==> merged[t] < |a| && SameHead(input[merged[t]], a[merged[t]])
    requires forall j :: 0 <= j < |a| && j !in merged ==> a[j] == input[j]
    requires SameHead(a[merged[idx]], v)
    ensures forall t :: 0 <= t < |merged| ==> SameHead(input[merged[t]], a[merged[idx] := v][merged[t]])
    ensures forall j :: 0 <= j < |a| && j !in merged ==> a[merged[idx] := v][j] == input[j]
  {
  }

  lemma AbsorbHead(kept: SliceNode, n: SliceNode)
    ensures SameHead(kept, Absorb(kept, n))
  {
  }

  /** A node whose key has been seen is absorbed into the node kept for it. */
  lemma MergeInvUpdate(a: seq<SliceNode>, input: seq<SliceNode>, merged: seq<nat>,
                       seen: map<(string, int), nat>, i: nat, updated: SliceNode)
    requires MergeInv(a, input, merged, seen, i) && i < |input|
    requires LineKey(a[i]) in seen
    requires seen[LineKey(a[i])] < |merged|
    requires updated == Absorb(a[merged[seen[LineKey(a[i])]]], a[i])
    ensures MergeInv(a[merged[seen[LineKey(a[i])]] := updated], input, merged, seen, i + 1)
  {
    var cur := MergeByLine(input[..i]);
    var idx := seen[LineKey(a[i])];
    var p := merged[idx];
    var b := a[p := updated];
    assert i !in merged;
    assert a[i] == input[i];
    assert KeyIndex(cur, LineKey(input[i])) == Some(idx);
    assert cur[idx] == a[p];
    MergeSnocSeen(input, i, idx);
    assert MergeByLine(input[..i + 1]) == cur[idx := updated];
    AbsorbHead(a[p], a[i]);
    SeenUpdate(seen, cur, idx, updated);
    DerefUpdate(a, merged, idx, updated);
    assert Deref(b, merged) == cur[idx := updated];
    UpdateFrame(a, input, merged, idx, updated);
    assert Refs(merged, i + 1);
  }

  /** The seen dictionary only ever holds positions of the list being built. */
  lemma SeenBelow(a: seq<SliceNode>, input: seq<SliceNode>, merged: seq<nat>,
                  seen: map<(string, int), nat>, i: nat, k: (string, int))
    requires MergeInv(a, input, merged, seen, i) && k in seen
    ensures seen[k] < |merged|
  {
    assert |Deref(a, merged)| == |merged|;
  }

  /** `_merge_nodes_by_line`. The caller's list is the array `nodes`, and the
      returned list holds references to its elements, as positions. The nodes
      referred to are the first occurrences, updated in place. So afterwards they
      read as the merge, and every other node of the caller is left as it was. */
  method MergeNodesByLine(nodes: array<SliceNode>) returns (merged: seq<nat>)
    modifies nodes
    ensures Refs(merged, nodes.Length)
    ensures Deref(nodes[..], merged) == MergeByLine(old(nodes[..]))
    ensures forall t :: 0 <= t < |merged| ==> SameHead(old(nodes[merged[t]]), nodes[merged[t]])
    ensures forall j :: 0 <= j < nodes.Length && j !in merged ==> nodes[j] == old(nodes[j])
  {
    ghost var input := nodes[..];
    var seenLines: map<(string, int), nat> := map[];
    merged := [];
    MergeInvStart(input);
    for i := 0 to nodes.Length
      invariant MergeInv(nodes[..], input, merged, seenLines, i)
    {
      var node := nodes[i];
      var key := (node.file, node.line);
      if key !in seenLines {
        MergeInvAppend(nodes[..], input, merged, seenLines, i);
        seenLines := seenLines[key := |merged|];
        merged := merged + [i];
      } else {
        SeenBelow(nodes[..], input, merged, seenLines, i, key);
        var p := merged[seenLines[key]];
        var updated := AbsorbInto(nodes[p], node);
        MergeInvUpdate(nodes[..], input, merged, seenLines, i, updated);
        nodes[p] := updated;
      }
    }
    assert input[..nodes.Length] == input;
  }

  // ---------------------------------------------------------------------------
  // what the tree formatter shows

  /** The backward section: merged, then re-sorted by `(file, line)`. */
  function BackwardShown(result: SliceResult, direction: SliceDirection): seq<SliceNode> {
    if direction != Forward && result.backwardSlice != [] then
      SortBy(MergeByLine(result.backwardSlice), Slicing.FileLineLe)
    else []
  }

  /** The forward section: merged, in the slicer's order. */
  function ForwardShown(result: SliceResult, direction: SliceDirection): seq<SliceNode> {
    if direction != Backward && result.forwardSlice != [] then MergeByLine(result.forwardSlice) else []
  }

  /** The backward section is sorted by file and line and shows each line once;
      the forward section shows each line once, in order of first occurrence. */
  lemma SectionsShown(result: SliceResult, direction: SliceDirection)
    ensures var b := BackwardShown(result, direction);
      && SortedBy(b, Slicing.FileLineLe) && DistinctLineKeys(b)
      && (direction != Forward ==> multiset(b) == multiset(MergeByLine(result.backwardSlice)))
    ensures var fw := ForwardShown(result, direction);
      && DistinctLineKeys(fw)
      && (direction != Backward ==> SameHeads(fw, FirstOccurrences(result.forwardSlice)))
  {
    Slicing.FileLineTotalPreorder();
    var m := MergeByLine(result.backwardSlice);
    MergeShape(result.backwardSlice);
    SortBySorted(m, Slicing.FileLineLe);
    SameHeadsDistinct(m, FirstOccurrences(result.backwardSlice));
    SortByDistinct(m, Slicing.FileLineLe, LineKey);
    MergeShape(result.forwardSlice);
    SameHeadsDistinct(MergeByLine(result.forwardSlice), FirstOccurrences(result.forwardSlice));
  }
}
