/** The JSON formatter's value: the dictionary handed to `json.dumps`, with
    the target, the sections the direction asks for (when non-empty) and the
    statistics over both slices. An object is its entries together with the
    order in which its keys were inserted, as a Python dictionary is. */
module JsonFormat {
  import opened Wrappers
  import opened Strings
  import opened SortedSets
  import opened Models

  datatype Json =
    | JNull
    | JInt(i: int)
    | JStr(s: string)
    | JArray(items: seq<Json>)
    | JObject(keys: seq<string>, entries: map<string, Json>)

  /** Every key listed once, and the listed keys are those with an entry. */
  predicate WellFormedObject(j: Json)
    requires j.JObject?
  {
    && (forall i, k :: 0 <= i < k < |j.keys| ==> j.keys[i] != j.keys[k])
    && (forall i :: 0 <= i < |j.keys| ==> j.keys[i] in j.entries)
    && (forall key :: key in j.entries ==> key in j.keys)
  }

  /** `d[key]`; `None` when the key is absent. */
  function Get(j: Json, key: string): Option<Json>
    requires j.JObject?
  {
    if key in j.entries then Some(j.entries[key]) else None
  }

  function GetStr(j: Json, key: string): Option<string>
    requires j.JObject?
  {
    match Get(j, key)
    case Some(JStr(s)) => Some(s)
    case _ => None
  }

  function GetInt(j: Json, key: string): Option<int>
    requires j.JObject?
  {
    match Get(j, key)
    case Some(JInt(i)) => Some(i)
    case _ => None
  }

  function StrArray(xs: seq<string>): (r: Json)
    ensures r.JArray? && |r.items| == |xs|
    ensures forall i :: 0 <= i < |xs| ==> r.items[i] == JStr(xs[i])
  {
    JArray(seq(|xs|, i requires 0 <= i < |xs| => JStr(xs[i])))
  }

  /** The strings of an array of strings; `None` when an item is not a string. */
  function FromStrArray(items: seq<Json>): (r: Option<seq<string>>)
    ensures r.Some? ==> |r.value| == |items| && forall i :: 0 <= i < |items| ==> items[i] == JStr(r.value[i])
    decreases |items|
  {
    if items == [] then Some([])
    else
      match (items[0], FromStrArray(items[1..]))
      case (JStr(s), Some(rest)) => Some([s] + rest)
      case _ => None
  }

  lemma {:induction false} StrArrayRoundTrip(xs: seq<string>)
    ensures FromStrArray(StrArray(xs).items) == Some(xs)
    decreases |xs|
  {
    if xs != [] {
      assert StrArray(xs).items[1..] == StrArray(xs[1..]).items;
      StrArrayRoundTrip(xs[1..]);
      assert [xs[0]] + xs[1..] == xs;
    }
  }

  /** `if node.context:` — a context that is set and not empty. */
  predicate Truthy(c: Option<string>) {
    c.Some? && c.value != ""
  }

  /** The keys of equal length differ; the others differ by their lengths. */
  lemma KeysDiffer()
    ensures "file" != "line" && "file" != "code" && "line" != "code" && "function" != "variable"
  {
  }

  // ---------------------------------------------------------------------------
  // _node_to_dict

  /** `_node_to_dict`. */
  function NodeToDict(n: SliceNode): Json {
    var head := map["file" := JStr(n.file), "line" := JInt(n.line), "function" := JStr(n.func),
                    "code" := JStr(Strip(n.code)), "variable" := JStr(n.variable),
                    "operation" := JStr(n.operation)];
    var withDeps := if n.dependencies != [] then head["dependencies" := StrArray(n.dependencies)] else head;
    var entries := if Truthy(n.context) then withDeps["context" := JStr(n.context.value)] else withDeps;
    JObject(
      ["file", "line", "function", "code", "variable", "operation"]
      + (if n.dependencies != [] then ["dependencies"] else [])
      + (if Truthy(n.context) then ["context"] else []),
      entries)
  }

  /** The six keys are always there, first and in this order, followed by
      `dependencies` and then `context` when they are present. */
  lemma NodeToDictKeys(n: SliceNode)
    ensures NodeToDict(n).keys[..6] == ["file", "line", "function", "code", "variable", "operation"]
    ensures |NodeToDict(n).keys| == 6 + (if n.dependencies != [] then 1 else 0) + (if Truthy(n.context) then 1 else 0)
  {
    KeysDiffer();
  }

  /** `dependencies` is there only when the list is non-empty, and `context`
      only when it is set and non-empty. */
  lemma NodeToDictOptional(n: SliceNode)
    ensures "dependencies" in NodeToDict(n).entries <==> n.dependencies != []
    ensures "context" in NodeToDict(n).entries <==> Truthy(n.context)
  {
    KeysDiffer();
  }

  lemma NodeToDictWellFormed(n: SliceNode)
    ensures WellFormedObject(NodeToDict(n))
  {
    KeysDiffer();
  }

  /** Reading a node dictionary back: the six fields must be there with the
      right types; `dependencies` defaults to `[]` and `context` to `None`. */
  function DictToNode(j: Json): Option<SliceNode> {
    if !j.JObject? then None
    else
      match (GetStr(j, "file"), GetInt(j, "line"), GetStr(j, "function"),
             GetStr(j, "code"), GetStr(j, "variable"), GetStr(j, "operation"))
      case (Some(file), Some(line), Some(func), Some(code), Some(variable), Some(operation)) =>
        var deps := match Get(j, "dependencies")
          case Some(JArray(items)) => FromStrArray(items)
          case Some(_) => None
          case None => Some([]);
        var context := match Get(j, "context")
          case Some(JStr(c)) => Some(Some(c))
          case Some(_) => None
          case None => Some(None);
        if deps.None? || context.None? then None
        else Some(SliceNode(file, line, func, code, variable, operation, deps.value, context.value))
      case _ => None
  }

  /** What a node dictionary keeps of a node: everything except the
      whitespace around the code, and an empty context reads as none. */
  function Shown(n: SliceNode): SliceNode {
    n.(code := Strip(n.code), context := if Truthy(n.context) then n.context else None)
  }

  lemma NodeDictHeadFields(n: SliceNode)
    ensures GetStr(NodeToDict(n), "file") == Some(n.file)
    ensures GetInt(NodeToDict(n), "line") == Some(n.line)
    ensures GetStr(NodeToDict(n), "function") == Some(n.func)
  {
    KeysDiffer();
  }

  lemma NodeDictTailFields(n: SliceNode)
    ensures GetStr(NodeToDict(n), "code") == Some(Strip(n.code))
    ensures GetStr(NodeToDict(n), "variable") == Some(n.variable)
    ensures GetStr(NodeToDict(n), "operation") == Some(n.operation)
  {
    KeysDiffer();
  }

  lemma NodeDictOptionalFields(n: SliceNode)
    ensures Get(NodeToDict(n), "dependencies") ==
      if n.dependencies != [] then Some(StrArray(n.dependencies)) else None
    ensures Get(NodeToDict(n), "context") ==
      if Truthy(n.context) then Some(JStr(n.context.value)) else None
  {
    KeysDiffer();
  }

  /** The dictionary of a node reads back as the node with its code stripped
      and an empty context dropped. */
  lemma NodeDictRoundTrip(n: SliceNode)
    ensures DictToNode(NodeToDict(n)) == Some(Shown(n))
  {
    KeysDiffer();
    NodeDictHeadFields(n);
    NodeDictTailFields(n);
    NodeDictOptionalFields(n);
    StrArrayRoundTrip(n.dependencies);
  }

  /** Only the whitespace around the code and an empty context are lost: two
      nodes with the same dictionary agree on everything else. */
  lemma NodeToDictInjective(a: SliceNode, b: SliceNode)
    requires NodeToDict(a) == NodeToDict(b)
    ensures Shown(a) == Shown(b)
  {
    NodeDictRoundTrip(a);
    NodeDictRoundTrip(b);
  }

  // ---------------------------------------------------------------------------
  // format

  function NodesToJson(ns: seq<SliceNode>): (r: seq<Json>)
    ensures |r| == |ns| && forall i :: 0 <= i < |ns| ==> r[i] == NodeToDict(ns[i])
  {
    seq(|ns|, i requires 0 <= i < |ns| => NodeToDict(ns[i]))
  }

  function FilesOf(ns: seq<SliceNode>): (r: seq<string>)
    ensures |r| == |ns| && forall i :: 0 <= i < |ns| ==> r[i] == ns[i].file
  {
    seq(|ns|, i requires 0 <= i < |ns| => ns[i].file)
  }

  function FunctionsOf(ns: seq<SliceNode>): (r: seq<string>)
    ensures |r| == |ns| && forall i :: 0 <= i < |ns| ==> r[i] == ns[i].func
  {
    seq(|ns|, i requires 0 <= i < |ns| => ns[i].func)
  }

  predicate ShowsBackward(d: SliceDirection) { d == Backward || d == Both }
  predicate ShowsForward(d: SliceDirection) { d == Forward || d == Both }

  function Statistics(r: SliceResult): Json {
    var all := r.backwardSlice + r.forwardSlice;
    JObject(["total_lines", "files_involved", "functions_involved"],
            map["total_lines" := JInt(|r.backwardSlice| + |r.forwardSlice|),
                "files_involved" := StrArray(SortedUnique(FilesOf(all))),
                "functions_involved" := StrArray(SortedUnique(FunctionsOf(all)))])
  }

  function Target(r: SliceResult): Json {
    JObject(["file", "line", "variable"],
            map["file" := JStr(r.targetFile), "line" := JInt(r.targetLine),
                "variable" := JStr(r.targetVariable)])
  }

  /** `JSONFormatter.format`, before serialisation. */
  function Format(r: SliceResult, d: SliceDirection): Json {
    var showBack := ShowsBackward(d) && r.backwardSlice != [];
    var showFwd := ShowsForward(d) && r.forwardSlice != [];
    JObject(TopKeys(showBack, showFwd),
            TopEntries(Target(r), JArray(NodesToJson(r.backwardSlice)), JArray(NodesToJson(r.forwardSlice)),
                       Statistics(r), showBack, showFwd))
  }

  /** The dictionary `format` fills: the target, the sections that are shown,
      then the statistics; its keys are those `TopKeys` lists. */
  function TopEntries(target: Json, back: Json, fwd: Json, stats: Json, showBack: bool, showFwd: bool)
    : (m: map<string, Json>)
    ensures forall k :: k in m <==> k in TopKeys(showBack, showFwd)
  {
    var e0 := map["target" := target];
    var e1 := if showBack then e0["backward_slice" := back] else e0;
    var e2 := if showFwd then e1["forward_slice" := fwd] else e1;
    e2["statistics" := stats]
  }

  /** The target is always there, first. */
  lemma FormatTarget(r: SliceResult, d: SliceDirection)
    ensures Format(r, d).keys[0] == "target"
    ensures Get(Format(r, d), "target") == Some(Target(r))
  {
  }

  /** The target carries the result's file, line and variable. */
  lemma TargetFields(r: SliceResult)
    ensures GetStr(Target(r), "file") == Some(r.targetFile)
    ensures GetInt(Target(r), "line") == Some(r.targetLine)
    ensures GetStr(Target(r), "variable") == Some(r.targetVariable)
  {
    KeysDiffer();
  }

  /** The top-level keys in insertion order: the sections that are shown sit
      between the target and the statistics. */
  function TopKeys(showBack: bool, showFwd: bool): (ks: seq<string>)
    ensures 2 <= |ks| <= 4 && ks[0] == "target" && ks[|ks| - 1] == "statistics"
    ensures forall i, k :: 0 <= i < k < |ks| ==> ks[i] != ks[k]
    ensures "backward_slice" in ks <==> showBack
    ensures "forward_slice" in ks <==> showFwd
    ensures forall k :: k in ks <==> k == "target" || k == "statistics"
                                     || (showBack && k == "backward_slice") || (showFwd && k == "forward_slice")
  {
    var ks := ["target"] + (if showBack then ["backward_slice"] else [])
      + (if showFwd then ["forward_slice"] else []) + ["statistics"];
    if showBack && showFwd then
      assert ks == ["target", "backward_slice", "forward_slice", "statistics"];
      ks
    else if showBack then
      assert ks == ["target", "backward_slice", "statistics"];
      ks
    else if showFwd then
      assert ks == ["target", "forward_slice", "statistics"];
      ks
    else
      assert ks == ["target", "statistics"];
      ks
  }

  /** The listed top-level keys are exactly those with an entry. */
  lemma FormatWellFormed(r: SliceResult, d: SliceDirection)
    ensures WellFormedObject(Format(r, d))
    ensures Format(r, d).keys[|Format(r, d).keys| - 1] == "statistics"
  {
    var showBack := ShowsBackward(d) && r.backwardSlice != [];
    var showFwd := ShowsForward(d) && r.forwardSlice != [];
    var ks := TopKeys(showBack, showFwd);
    var m := TopEntries(Target(r), JArray(NodesToJson(r.backwardSlice)), JArray(NodesToJson(r.forwardSlice)),
                        Statistics(r), showBack, showFwd);
    assert Format(r, d) == JObject(ks, m);
    KeysEntries(ks, m);
  }

  /** An object whose entries are keyed by exactly the distinct keys it lists is well formed. */
  lemma KeysEntries(ks: seq<string>, m: map<string, Json>)
    requires forall i, k :: 0 <= i < k < |ks| ==> ks[i] != ks[k]
    requires forall k :: k in m <==> k in ks
    ensures WellFormedObject(JObject(ks, m))
  {
    assert forall i :: 0 <= i < |ks| ==> ks[i] in ks;
  }

  /** The only top-level keys are these four. */
  lemma FormatKeys(r: SliceResult, d: SliceDirection)
    ensures forall k :: k in Format(r, d).entries ==> k in {"target", "backward_slice", "forward_slice", "statistics"}
  {
  }

  /** `backward_slice` is there exactly when the direction shows it and the
      slice is non-empty, and then its nodes read back as the shown slice. */
  lemma FormatBackward(r: SliceResult, d: SliceDirection)
    ensures Get(Format(r, d), "backward_slice").Some? <==> ShowsBackward(d) && r.backwardSlice != []
    ensures Get(Format(r, d), "backward_slice").Some? ==>
      ReadNodes(Get(Format(r, d), "backward_slice").value) == Some(ShownAll(r.backwardSlice))
  {
    ReadNodesRoundTrip(r.backwardSlice);
  }

  /** Likewise `forward_slice`. */
  lemma FormatForward(r: SliceResult, d: SliceDirection)
    ensures Get(Format(r, d), "forward_slice").Some? <==> ShowsForward(d) && r.forwardSlice != []
    ensures Get(Format(r, d), "forward_slice").Some? ==>
      ReadNodes(Get(Format(r, d), "forward_slice").value) == Some(ShownAll(r.forwardSlice))
  {
    ReadNodesRoundTrip(r.forwardSlice);
  }

  function ShownAll(ns: seq<SliceNode>): (r: seq<SliceNode>)
    ensures |r| == |ns| && forall i :: 0 <= i < |ns| ==> r[i] == Shown(ns[i])
  {
    seq(|ns|, i requires 0 <= i < |ns| => Shown(ns[i]))
  }

  /** The nodes of a section; `None` when it is not an array of node dictionaries. */
  function ReadNodes(j: Json): Option<seq<SliceNode>> {
    if j.JArray? then ReadItems(j.items) else None
  }

  function ReadItems(items: seq<Json>): Option<seq<SliceNode>>
    decreases |items|
  {
    if items == [] then Some([])
    else
      match (DictToNode(items[0]), ReadItems(items[1..]))
      case (Some(n), Some(rest)) => Some([n] + rest)
      case _ => None
  }

  /** Items that each read back as a node read back as those nodes. */
  lemma {:induction false} ReadItemsEach(items: seq<Json>, ms: seq<SliceNode>)
    requires |items| == |ms| && forall i :: 0 <= i < |items| ==> DictToNode(items[i]) == Some(ms[i])
    ensures ReadItems(items) == Some(ms)
    decreases |items|
  {
    if items != [] {
      ReadItemsEach(items[1..], ms[1..]);
      assert ms == [ms[0]] + ms[1..];
    }
  }

  lemma ReadItemsRoundTrip(ns: seq<SliceNode>)
    ensures ReadItems(NodesToJson(ns)) == Some(ShownAll(ns))
  {
    forall i | 0 <= i < |ns| ensures DictToNode(NodesToJson(ns)[i]) == Some(ShownAll(ns)[i]) {
      NodeDictRoundTrip(ns[i]);
    }
    ReadItemsEach(NodesToJson(ns), ShownAll(ns));
  }

  lemma ReadNodesRoundTrip(ns: seq<SliceNode>)
    ensures ReadNodes(JArray(NodesToJson(ns))) == Some(ShownAll(ns))
  {
    ReadItemsRoundTrip(ns);
  }

  /** The statistics are there whatever the direction, and do not depend on it. */
  lemma FormatStatistics(r: SliceResult, d: SliceDirection)
    ensures Get(Format(r, d), "statistics") == Some(Statistics(r))
  {
  }

  /** `total_lines` counts both slices, and the files and functions involved
      are those of the nodes of both slices, each once, in increasing order. */
  lemma StatisticsFields(r: SliceResult)
    ensures GetInt(Statistics(r), "total_lines") == Some(|r.backwardSlice| + |r.forwardSlice|)
    ensures Get(Statistics(r), "files_involved") ==
      Some(StrArray(SortedUnique(FilesOf(r.backwardSlice + r.forwardSlice))))
    ensures Get(Statistics(r), "functions_involved") ==
      Some(StrArray(SortedUnique(FunctionsOf(r.backwardSlice + r.forwardSlice))))
  {
  }

  /** The list of files involved holds each file of a node of either slice
      exactly once, in increasing order; likewise the functions. */
  lemma InvolvedSpec(r: SliceResult)
    ensures var all := r.backwardSlice + r.forwardSlice;
      && StrictlySorted(SortedUnique(FilesOf(all)))
      && StrictlySorted(SortedUnique(FunctionsOf(all)))
      && (forall i :: 0 <= i < |all| ==> all[i].file in SortedUnique(FilesOf(all)) && all[i].func in SortedUnique(FunctionsOf(all)))
      && (forall x :: x in SortedUnique(FilesOf(all)) ==> exists i :: 0 <= i < |all| && all[i].file == x)
      && (forall x :: x in SortedUnique(FunctionsOf(all)) ==> exists i :: 0 <= i < |all| && all[i].func == x)
  {
    var all := r.backwardSlice + r.forwardSlice;
    FilesInvolved(all);
    FunctionsInvolved(all);
  }

  lemma FilesInvolved(all: seq<SliceNode>)
    ensures StrictlySorted(SortedUnique(FilesOf(all)))
    ensures forall i :: 0 <= i < |all| ==> all[i].file in SortedUnique(FilesOf(all))
    ensures forall x :: x in SortedUnique(FilesOf(all)) ==> exists i :: 0 <= i < |all| && all[i].file == x
  {
    var files := FilesOf(all);
    SortedUniqueSpec(files);
    forall i | 0 <= i < |all| ensures all[i].file in files {
      assert files[i] == all[i].file;
    }
    forall x | x in SortedUnique(files) ensures exists i :: 0 <= i < |all| && all[i].file == x {
      var i :| 0 <= i < |files| && files[i] == x;
      assert all[i].file == x;
    }
  }

  lemma FunctionsInvolved(all: seq<SliceNode>)
    ensures StrictlySorted(SortedUnique(FunctionsOf(all)))
    ensures forall i :: 0 <= i < |all| ==> all[i].func in SortedUnique(FunctionsOf(all))
    ensures forall x :: x in SortedUnique(FunctionsOf(all)) ==> exists i :: 0 <= i < |all| && all[i].func == x
  {
    var funcs := FunctionsOf(all);
    SortedUniqueSpec(funcs);
    forall i | 0 <= i < |all| ensures all[i].func in funcs {
      assert funcs[i] == all[i].func;
    }
    forall x | x in SortedUnique(funcs) ensures exists i :: 0 <= i < |all| && all[i].func == x {
      var i :| 0 <= i < |funcs| && funcs[i] == x;
      assert all[i].func == x;
    }
  }
}
