/** The command line's validation: from the argument vector to either an error
    (with exit status 1) or an accepted configuration. The validations run in a
    fixed order and the first that fails decides the outcome. Whether a path
    exists is a parameter: the set of paths that exist. An accepted run then
    slices, which can still end the process with status 1. */
module Cli {
  import opened Wrappers
  import opened Strings
  import opened Models
  import opened ImportResolution
  import opened Tracking
  import Slicing

  datatype Formatter = GraphFormatter | JsonFormatter | DotFormatter | TreeFormatter

  datatype Outcome =
    | Usage
    | BadDirection(given: string)
    | BadFormat(given: string)
    | BadCriterion
    | FileNotFound(path: string)
    | Run(file: string, line: int, variable: string, direction: SliceDirection, formatter: Formatter)

  /** `sys.exit(1)` on every error, a normal end otherwise. */
  function ExitCode(o: Outcome): (code: int)
    ensures code == 0 <==> o.Run?
  {
    if o.Run? then 0 else 1
  }

  /** `Path(s)` as components: the text split at '/', without the empty and
      "." components that `pathlib` drops. */
  function PathOf(s: string): (p: Path)
    ensures forall i :: 0 <= i < |p| ==> p[i] != "." && p[i] in SplitOn(s, '/')
  {
    Components(SplitOn(s, '/'))
  }

  function Components(parts: seq<string>): (p: Path)
    requires forall i :: 0 <= i < |parts| ==> '/' !in parts[i]
    ensures forall i :: 0 <= i < |p| ==> p[i] != "." && p[i] in parts
    ensures forall i :: 0 <= i < |parts| && parts[i] != "" && parts[i] != "." ==> parts[i] in p
    decreases |parts|
  {
    if parts == [] then []
    else
      var rest := Components(parts[1..]);
      assert forall i :: 1 <= i < |parts| ==> parts[i] == parts[1..][i - 1];
      if parts[0] == "" || parts[0] == "." then rest else [parts[0]] + rest
  }

  /** The status the process ends with. It is 1 when validation fails. It is
      also 1 when `slice` raises, because the file cannot be read or does not
      parse: `main` does not catch that exception. Otherwise it is 0. `main`
      builds `Slicer()`, whose root is the working directory and which analyses
      imports. The outcome comes from `Validate` over the same files: an
      accepted file exists, read against the working directory. */
  function ExitStatus(o: Outcome, fs: FileSystem, listing: Listing): (code: int)
    requires o.Run? ==> fs.cwd + PathOf(o.file) in fs.existing
    ensures code == 0 || code == 1
    ensures ExitCode(o) != 0 ==> code == 1
    ensures code == 0 <==>
      && o.Run?
      && Slicing.FullPath(fs, fs.cwd, PathOf(o.file)) in fs.text
      && Slicing.FullPath(fs, fs.cwd, PathOf(o.file)) in fs.trees
    ensures o.Run? ==> Slicing.FullPath(fs, fs.cwd, PathOf(o.file)) == fs.cwd + PathOf(o.file)
  {
    if !o.Run? then 1
    else match Slicing.SliceOf(fs, fs.cwd, true, listing, PathOf(o.file), o.line, o.variable, o.direction)
      case Err(_) => 1
      case Ok(_) => 0
  }

  const Formats: seq<string> := ["tree", "graph", "json", "dot"]

  /** The formatter for an accepted format name; anything else is the tree view. */
  function FormatterFor(format: string): (f: Formatter)
    ensures f == GraphFormatter <==> format == "graph"
    ensures f == JsonFormatter <==> format == "json"
    ensures f == DotFormatter <==> format == "dot"
    ensures f == TreeFormatter <==> format != "graph" && format != "json" && format != "dot"
  {
    if format == "graph" then GraphFormatter
    else if format == "json" then JsonFormatter
    else if format == "dot" then DotFormatter
    else TreeFormatter
  }

  /** `file_path, line_str, variable = criterion.split(":")` and `int(line_str)`;
      `None` is the ValueError of either. */
  function ParseCriterion(criterion: string): Option<(string, int, string)> {
    var parts := SplitOn(criterion, ':');
    if |parts| != 3 then None
    else match ParseInt(parts[1])
      case None => None
      case Some(line) => Some((parts[0], line, parts[2]))
  }

  /** `main` up to the call of the slicer: `argv[0]` is the program name. */
  function Validate(argv: seq<string>, existing: set<string>): Outcome {
    if |argv| < 2 then Usage
    else
      var criterion := argv[1];
      var directionStr := if |argv| > 2 then argv[2] else "both";
      var formatStr := Lower(if |argv| > 3 then argv[3] else "tree");
      match DirectionFromValue(Lower(directionStr))
      case None => BadDirection(directionStr)
      case Some(direction) =>
        if formatStr !in Formats then BadFormat(formatStr)
        else match ParseCriterion(criterion)
          case None => BadCriterion
          case Some((file, line, variable)) =>
            if file !in existing then FileNotFound(file)
            else Run(file, line, variable, direction, FormatterFor(formatStr))
  }

  // ---------------------------------------------------------------------------
  // properties

  /** Fewer than two entries: the usage text and exit status 1. */
  lemma TooFewArguments(argv: seq<string>, existing: set<string>)
    requires |argv| < 2
    ensures Validate(argv, existing) == Usage && ExitCode(Usage) == 1
  {
  }

  /** The direction a run uses: the third entry, lower-cased, or "both". */
  function DirectionArg(argv: seq<string>): string {
    Lower(if |argv| > 2 then argv[2] else "both")
  }

  /** The format a run uses: the fourth entry, lower-cased, or "tree". */
  function FormatArg(argv: seq<string>): string {
    Lower(if |argv| > 3 then argv[3] else "tree")
  }

  /** The validations in order: the direction is checked first, then the format,
      then the criterion, then the file; each error happens exactly when the
      checks before it pass and its own fails. */
  lemma CheckOrder(argv: seq<string>, existing: set<string>)
    requires |argv| >= 2
    ensures var o := Validate(argv, existing);
      var dirOk := DirectionFromValue(DirectionArg(argv)).Some?;
      var fmtOk := FormatArg(argv) in {"tree", "graph", "json", "dot"};
      var crit := ParseCriterion(argv[1]);
      && (o.BadDirection? <==> !dirOk)
      && (o.BadFormat? <==> dirOk && !fmtOk)
      && (o.BadCriterion? <==> dirOk && fmtOk && crit.None?)
      && (o.FileNotFound? <==> dirOk && fmtOk && crit.Some? && crit.value.0 !in existing)
      && (o.Run? <==> dirOk && fmtOk && crit.Some? && crit.value.0 in existing)
      && !o.Usage?
  {
  }

  /** An accepted run carries the criterion's parts, the chosen direction and
      the formatter of the chosen format. */
  lemma RunFields(argv: seq<string>, existing: set<string>)
    requires Validate(argv, existing).Run?
    ensures var o := Validate(argv, existing);
      && |argv| >= 2
      && ParseCriterion(argv[1]) == Some((o.file, o.line, o.variable))
      && o.file in existing
      && DirectionValue(o.direction) == DirectionArg(argv)
      && o.formatter == FormatterFor(FormatArg(argv))
  {
  }

  /** Without a direction and a format the run is in both directions, as a tree. */
  lemma Defaults(argv: seq<string>, existing: set<string>)
    requires |argv| == 2 && Validate(argv, existing).Run?
    ensures Validate(argv, existing).direction == Both
    ensures Validate(argv, existing).formatter == TreeFormatter
  {
    assert Lower("both") == "both";
    assert Lower("tree") == "tree";
  }

  /** The criterion is accepted exactly when it has three parts and the middle
      one is a number. */
  lemma CriterionAccepted(criterion: string)
    ensures ParseCriterion(criterion).Some? <==>
      |SplitOn(criterion, ':')| == 3 && ParseInt(SplitOn(criterion, ':')[1]).Some?
  {
  }

  // ---------------------------------------------------------------------------
  // the partner: writing a criterion out and reading it back

  function DigitChar(d: nat): char
    requires d < 10
  {
    ('0' as int + d) as char
  }

  /** The decimal digits of `n`, most significant first. */
  function NatDigits(n: nat): (s: string)
    ensures s != [] && forall k :: 0 <= k < |s| ==> IsDigit(s[k])
  {
    if n < 10 then [DigitChar(n)] else NatDigits(n / 10) + [DigitChar(n % 10)]
  }

  lemma {:induction false} NatDigitsValue(n: nat)
    ensures DigitsValue(NatDigits(n)) == n
  {
    var s := NatDigits(n);
    if n >= 10 {
      NatDigitsValue(n / 10);
      assert s[..|s| - 1] == NatDigits(n / 10);
    } else {
      assert s[..0] == [];
    }
  }

  /** `str(n)`. */
  function IntString(n: int): string {
    if n < 0 then "-" + NatDigits(-n) else NatDigits(n)
  }

  lemma IntStringRoundTrip(n: int)
    ensures ParseInt(IntString(n)) == Some(n)
    ensures ':' !in IntString(n)
  {
    if n < 0 {
      NegativeRoundTrip(n);
    } else {
      NatDigitsValue(n);
      DigitsParse(NatDigits(n));
    }
    IntStringNoColon(n);
  }

  /** Digits alone read back as their value. */
  lemma DigitsParse(d: string)
    requires d != [] && forall k :: 0 <= k < |d| ==> IsDigit(d[k])
    ensures ParseInt(d) == Some(DigitsValue(d))
  {
    assert IsDigit(d[0]);
  }

  lemma NegativeRoundTrip(n: int)
    requires n < 0
    ensures ParseInt(IntString(n)) == Some(n)
  {
    var d := NatDigits(-n);
    NatDigitsValue(-n);
    var s := IntString(n);
    assert s[0] == '-' && s[1..] == d;
  }

  lemma IntStringNoColon(n: int)
    ensures ':' !in IntString(n)
  {
    var s := IntString(n);
    var d := NatDigits(if n < 0 then -n else n);
    forall k | 0 <= k < |d|
      ensures d[k] != ':'
    {
      assert IsDigit(d[k]);
    }
    assert s == d || s == "-" + d;
  }

  /** The criterion `file:line:variable`. */
  function Criterion(file: string, line: int, variable: string): string {
    file + ":" + IntString(line) + ":" + variable
  }

  /** A criterion written from a file and a variable without ':' reads back as
      its three parts. */
  lemma CriterionRoundTrip(file: string, line: int, variable: string)
    requires ':' !in file && ':' !in variable
    ensures ParseCriterion(Criterion(file, line, variable)) == Some((file, line, variable))
  {
    IntStringRoundTrip(line);
    var l := IntString(line);
    SplitJoin([file, l, variable], ':');
    assert JoinWith([file, l, variable], ':') == Criterion(file, line, variable) by {
      assert JoinWith([l, variable], ':') == l + [':'] + variable;
    }
  }

  /** A command line written out for an existing file, a direction and an
      accepted format is accepted with exactly those settings. */
  lemma ValidateRoundTrip(file: string, line: int, variable: string, d: SliceDirection,
                          format: string, existing: set<string>)
    requires ':' !in file && ':' !in variable && file in existing
    requires format in {"tree", "graph", "json", "dot"}
    ensures Validate(["flowslice", Criterion(file, line, variable), DirectionValue(d), format], existing)
      == Run(file, line, variable, d, FormatterFor(format))
  {
    CriterionRoundTrip(file, line, variable);
    LowerLowercase(DirectionValue(d));
    LowerLowercase(format);
    DirectionRoundTrip(d);
  }

  /** Lower-casing leaves a string without capitals unchanged. */
  lemma LowerLowercase(s: string)
    requires forall k :: 0 <= k < |s| ==> !('A' <= s[k] <= 'Z')
    ensures Lower(s) == s
  {
  }
}
