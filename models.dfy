/** The records every other part of the engine builds on: the slicing
    direction, one fact of a slice, and the result of slicing one criterion. */
module Models {
  import opened Wrappers

  datatype SliceDirection = Backward | Forward | Both

  /** The enumeration value of a direction. */
  function DirectionValue(d: SliceDirection): string {
    match d
    case Backward => "backward"
    case Forward => "forward"
    case Both => "both"
  }

  /** `SliceDirection(s)`: the member whose value is `s`; `None` is the ValueError. */
  function DirectionFromValue(s: string): (r: Option<SliceDirection>)
    ensures r.Some? ==> DirectionValue(r.value) == s
    ensures r.None? ==> forall d: SliceDirection :: DirectionValue(d) != s
  {
    if s == "backward" then Some(Backward)
    else if s == "forward" then Some(Forward)
    else if s == "both" then Some(Both)
    else None
  }

  /** Constructing a direction from its value gives back that direction. */
  lemma DirectionRoundTrip(d: SliceDirection)
    ensures DirectionFromValue(DirectionValue(d)) == Some(d)
  {
  }

  /** There are exactly three directions, with three distinct values. */
  lemma DirectionValuesDistinct()
    ensures forall d, e: SliceDirection :: DirectionValue(d) == DirectionValue(e) ==> d == e
    ensures forall s :: DirectionFromValue(s).Some? <==> s in {"backward", "forward", "both"}
  {
  }

  /** One fact of a slice: where (file, line, enclosing function), the source line,
      the variable concerned, what happened to it, what it depends on, and an
      optional note. Equality is structural over all eight fields. */
  datatype SliceNode = SliceNode(
    file: string,
    line: int,
    func: string,
    code: string,
    variable: string,
    operation: string,
    dependencies: seq<string>,
    context: Option<string>)

  /** A node built from its six required fields: no dependencies and no context. */
  function NewSliceNode(file: string, line: int, func: string, code: string,
                        variable: string, operation: string): (n: SliceNode)
    ensures n.dependencies == [] && n.context == None
    ensures n.file == file && n.line == line && n.func == func
    ensures n.code == code && n.variable == variable && n.operation == operation
  {
    SliceNode(file, line, func, code, variable, operation, [], None)
  }

  /** The result of slicing one criterion. */
  datatype SliceResult = SliceResult(
    targetFile: string,
    targetLine: int,
    targetVariable: string,
    backwardSlice: seq<SliceNode>,
    forwardSlice: seq<SliceNode>)

  /** A result built from the target alone: both slices empty. */
  function NewSliceResult(file: string, line: int, variable: string): (r: SliceResult)
    ensures r.backwardSlice == [] && r.forwardSlice == []
    ensures r.targetFile == file && r.targetLine == line && r.targetVariable == variable
  {
    SliceResult(file, line, variable, [], [])
  }
}
