/** The name helpers of the slicing engine: attribute paths, the names an
    expression mentions (the engine's NameCollector), the "most specific"
    filter on dotted names, and the base and call names of an expression. */
module NameAnalysis {
  import opened PyAst
  import opened Strings

  // ---------------------------------------------------------------------------
  // attribute chains

  /** The identifiers of an attribute chain rooted at a plain name (`a.b.c` gives
      `["a", "b", "c"]`); empty when the expression is not such a chain. */
  function ChainParts(e: Expr): seq<Ident> {
    match e
    case Name(id) => [id]
    case Attribute(v, a) => var p := ChainParts(v); if p == [] then [] else p + [a]
    case _ => []
  }

  /** The dotted path of an attribute chain rooted at a name, or "" when the
      expression is not such a chain (for example `f().x`). */
  function FullAttrPath(e: Expr): (r: string)
    ensures ChainParts(e) == [] ==> r == ""
    ensures ChainParts(e) != [] ==> r == JoinWith(ChainParts(e), '.')
  {
    match e
    case Name(id) => id
    case Attribute(v, a) =>
      var base := FullAttrPath(v);
      if base != "" then
        JoinSnoc(ChainParts(v), a, '.');
        base + "." + a
      else ""
    case _ => ""
  }

  /** A join of identifiers is never empty. */
  lemma {:induction false} JoinIdentsNonEmpty(parts: seq<Ident>)
    requires |parts| >= 1
    ensures JoinWith(parts, '.') != ""
  {
    if |parts| > 1 {
      assert JoinWith(parts, '.') == parts[0] + ['.'] + JoinWith(parts[1..], '.');
    }
  }

  /** The path together with all its proper dotted prefixes, computed as the
      collector does: split the path on '.', then join every leading run of parts. */
  function PathNames(fullPath: string): set<string> {
    var parts := SplitOn(fullPath, '.');
    {fullPath} + set i | 1 <= i < |parts| :: JoinWith(parts[..i], '.')
  }

  /** Every leading run of a list of parts, joined. */
  function Prefixes(parts: seq<string>): set<string>
    requires |parts| >= 1
  {
    set i | 1 <= i <= |parts| :: JoinWith(parts[..i], '.')
  }

  /** The whole join together with the joins of the proper leading runs are all the leading runs. */
  lemma PrefixesSplit(parts: seq<string>)
    requires |parts| >= 1
    ensures Prefixes(parts) == {JoinWith(parts, '.')} + set i | 1 <= i < |parts| :: JoinWith(parts[..i], '.')
  {
    var n := |parts|;
    var proper := set i | 1 <= i < n :: JoinWith(parts[..i], '.');
    forall x | x in Prefixes(parts)
      ensures x in {JoinWith(parts, '.')} + proper
    {
      var i :| 1 <= i <= n && x == JoinWith(parts[..i], '.');
      ProperOrWhole(parts, i, proper);
    }
    forall x | x in {JoinWith(parts, '.')} + proper
      ensures x in Prefixes(parts)
    {
      if x in proper {
        var i :| 1 <= i < n && x == JoinWith(parts[..i], '.');
        InPrefixes(parts, i);
      } else {
        InPrefixes(parts, n);
        assert parts[..n] == parts;
      }
    }
  }

  lemma InPrefixes(parts: seq<string>, i: nat)
    requires 1 <= i <= |parts|
    ensures JoinWith(parts[..i], '.') in Prefixes(parts)
  {
  }

  lemma ProperOrWhole(parts: seq<string>, i: nat, proper: set<string>)
    requires 1 <= i <= |parts|
    requires proper == set k | 1 <= k < |parts| :: JoinWith(parts[..k], '.')
    ensures JoinWith(parts[..i], '.') in {JoinWith(parts, '.')} + proper
  {
    if i == |parts| {
      assert parts[..i] == parts;
    } else {
      assert JoinWith(parts[..i], '.') in proper;
    }
  }

  /** For the path of a chain, the collected names are exactly the joined leading runs of its parts. */
  lemma PathNamesOfChain(parts: seq<Ident>)
    requires |parts| >= 1
    ensures PathNames(JoinWith(parts, '.')) == Prefixes(parts)
  {
    SplitJoin(parts, '.');
    PrefixesSplit(parts);
  }

  // ---------------------------------------------------------------------------
  // NameCollector

  /** The names an expression mentions: every plain name; for every attribute chain
      rooted at a name, its path and every dotted prefix of it; inside a comprehension,
      only what each generator iterates over. */
  function Names(e: Expr): set<string>
    decreases e
  {
    match e
    case Name(id) => {id}
    case Attribute(v, _) =>
      var fullPath := FullAttrPath(e);
      (if fullPath != "" then PathNames(fullPath) else {}) + Names(v)
    case Call(f, args, keywords, _) => Names(f) + NamesAll(args) + NamesAll(keywords)
    case Comp(_, _, generators) => IterNames(generators)
    case Other(children) => NamesAll(children)
  }

  function NamesAll(es: seq<Expr>): set<string>
    decreases es
  {
    if es == [] then {} else Names(es[0]) + NamesAll(es[1..])
  }

  function IterNames(gs: seq<Comprehension>): set<string>
    decreases gs
  {
    if gs == [] then {} else Names(gs[0].iter) + IterNames(gs[1..])
  }

  /** The leading runs of a shorter chain are among those of the chain one attribute longer. */
  lemma PrefixesSnoc(parts: seq<string>, a: string)
    requires |parts| >= 1
    ensures Prefixes(parts + [a]) == Prefixes(parts) + {JoinWith(parts + [a], '.')}
  {
    var q := parts + [a];
    forall i | 1 <= i <= |parts| ensures q[..i] == parts[..i] { }
    forall x | x in Prefixes(q) ensures x in Prefixes(parts) + {JoinWith(q, '.')} {
      var i :| 1 <= i <= |q| && x == JoinWith(q[..i], '.');
      if i == |q| { assert q[..i] == q; }
    }
    forall x | x in Prefixes(parts) ensures x in Prefixes(q) {
      var i :| 1 <= i <= |parts| && x == JoinWith(parts[..i], '.');
      assert x == JoinWith(q[..i], '.');
    }
    assert q[..|q|] == q;
  }

  /** An attribute chain rooted at a name (`a.b.c`) contributes exactly its path and
      every dotted prefix of it (`a.b.c`, `a.b`, `a`), and nothing else. */
  lemma {:induction false} NamesOfChain(e: Expr)
    requires ChainParts(e) != []
    ensures Names(e) == Prefixes(ChainParts(e))
    decreases e
  {
    match e
    case Name(id) =>
      assert ChainParts(e)[..1] == [id];
    case Attribute(v, a) =>
      NamesOfChain(v);
      var p := ChainParts(v);
      PathNamesOfChain(ChainParts(e));
      PrefixesSnoc(p, a);
      assert ChainParts(e) == p + [a];
  }

  /** The collector's own worked example, `args.file`, for any two identifiers:
      `a.b` gives `{"a.b", "a"}`. */
  lemma NamesOfPair(a: Ident, b: Ident)
    ensures Names(Attribute(Name(a), b)) == {a + "." + b, a}
  {
    var e := Attribute(Name(a), b);
    var parts: seq<string> := [a, b];
    assert ChainParts(e) == parts;
    NamesOfChain(e);
    PrefixesSplit(parts);
    assert parts[..1] == [a];
    assert (set i | 1 <= i < |parts| :: JoinWith(parts[..i], '.')) == {JoinWith(parts[..1], '.')};
  }

  /** An attribute taken on something that is not a chain (`f(x).attr`) adds no dotted
      path of its own: only the names inside the base expression are collected. */
  lemma UnrootedAttribute(v: Expr, a: Ident)
    requires ChainParts(v) == []
    ensures Names(Attribute(v, a)) == Names(v)
  {
  }

  lemma {:induction false} IterNamesIff(gs: seq<Comprehension>)
    ensures forall n :: n in IterNames(gs) <==> exists g :: g in gs && n in Names(g.iter)
    decreases gs
  {
    if gs != [] {
      IterNamesIff(gs[1..]);
      assert gs == [gs[0]] + gs[1..];
    }
  }

  /** A comprehension contributes only the names of the collections its generators
      iterate over: the element, the bound targets and the `if` filters are ignored. */
  lemma ComprehensionNames(kind: CompKind, elts: seq<Expr>, gs: seq<Comprehension>)
    ensures forall n :: n in Names(Comp(kind, elts, gs)) <==> exists g :: g in gs && n in Names(g.iter)
  {
    IterNamesIff(gs);
  }

  /** `[x * 2 for x in source if x > 0]` depends on `source` only. */
  lemma ListComprehensionExample()
    ensures Names(Comp(ListComp, [Other([Name("x")])],
                       [Comprehension(Name("x"), Name("source"), [Other([Name("x")])])]))
         == {"source"}
  {
  }

  // ---------------------------------------------------------------------------
  // _filter_most_specific

  /** `n + "."` is a prefix of `o`: `o` is a more specific path under `n`. */
  predicate ExtendsPath(o: string, n: string) {
    n + "." <= o
  }

  /** Keeps a name unless some other name of the set is a more specific path under it. */
  function FilterMostSpecific(names: set<string>): (r: set<string>)
    ensures r <= names
    ensures names == {} ==> r == {}
  {
    set n | n in names && !(exists o :: o in names && o != n && ExtendsPath(o, n))
  }

  lemma ExtendsLonger(o: string, n: string)
    requires ExtendsPath(o, n)
    ensures |o| > |n|
  {
  }

  lemma ExtendsTrans(a: string, b: string, c: string)
    requires ExtendsPath(a, b) && ExtendsPath(b, c)
    ensures ExtendsPath(a, c)
  {
    assert (c + ".") <= b;
    assert forall k :: 0 <= k < |c + "."| ==> a[k] == b[k] == (c + ".")[k];
  }

  /** No kept name is a dotted prefix of another kept name. */
  lemma FilterAntichain(names: set<string>)
    ensures forall n, o :: (n in FilterMostSpecific(names) && o in FilterMostSpecific(names) && o != n)
                           ==> !ExtendsPath(o, n)
  {
  }

  /** A finite set of strings has an element of greatest length. */
  lemma {:induction false} Longest(s: set<string>) returns (m: string)
    requires s != {}
    ensures m in s && forall x :: x in s ==> |x| <= |m|
    decreases |s|
  {
    var x :| x in s;
    if s == {x} {
      m := x;
    } else {
      var rest := Longest(s - {x});
      m := if |x| > |rest| then x else rest;
    }
  }

  /** A name longer than every extension of `n` cannot itself be extended without
      the extension also extending `n`. */
  lemma ExtendsThrough(o: string, m: string, n: string)
    requires ExtendsPath(m, n)
    ensures ExtendsPath(o, m) ==> ExtendsPath(o, n) && |o| > |m|
  {
    if ExtendsPath(o, m) {
      ExtendsTrans(o, m, n);
      ExtendsLonger(o, m);
    }
  }

  /** Every dropped name is a dotted prefix of some name that is kept. */
  lemma FilterCovers(names: set<string>, n: string)
    requires n in names && n !in FilterMostSpecific(names)
    ensures exists o :: o in FilterMostSpecific(names) && ExtendsPath(o, n)
  {
    var ext := set o | o in names && ExtendsPath(o, n);
    var o0 :| o0 in names && o0 != n && ExtendsPath(o0, n);
    assert o0 in ext;
    var m := Longest(ext);
    forall o | o in names && o != m ensures !ExtendsPath(o, m) {
      ExtendsThrough(o, m, n);
    }
    assert m in FilterMostSpecific(names);
  }

  /** Filtering a second time changes nothing. */
  lemma FilterIdempotent(names: set<string>)
    ensures FilterMostSpecific(FilterMostSpecific(names)) == FilterMostSpecific(names)
  {
    var f := FilterMostSpecific(names);
    FilterAntichain(names);
    forall n | n in f ensures n in FilterMostSpecific(f) { }
  }

  /** A name is dropped exactly when the input holds a more specific path under it. */
  lemma FilterDrops(names: set<string>, n: string)
    requires n in names
    ensures n !in FilterMostSpecific(names) <==> exists o :: o in names && o != n && ExtendsPath(o, n)
  {
  }

  /** Every joined leading run other than the whole join is a dotted prefix of the whole. */
  lemma PrefixesOfJoin(parts: seq<string>, x: string)
    requires |parts| >= 1 && x in Prefixes(parts)
    ensures x == JoinWith(parts, '.') || ExtendsPath(JoinWith(parts, '.'), x)
  {
    var i :| 1 <= i <= |parts| && x == JoinWith(parts[..i], '.');
    if i < |parts| {
      JoinPrefix(parts, i, '.');
    } else {
      assert parts[..i] == parts;
    }
  }

  /** The names of one attribute chain filter down to its full path alone. */
  lemma FilterChain(e: Expr)
    requires ChainParts(e) != []
    ensures FilterMostSpecific(Names(e)) == {FullAttrPath(e)}
  {
    var parts := ChainParts(e);
    var full := JoinWith(parts, '.');
    var names := Names(e);
    NamesOfChain(e);
    assert parts[..|parts|] == parts;
    assert full in names;
    forall x | x in names ensures x == full || ExtendsPath(full, x) {
      PrefixesOfJoin(parts, x);
    }
    forall o | o in names && o != full ensures !ExtendsPath(o, full) {
      assert ExtendsPath(full, o);
      ExtendsLonger(full, o);
      if ExtendsPath(o, full) {
        ExtendsLonger(o, full);
      }
    }
  }

  // ---------------------------------------------------------------------------
  // _get_base_name, _get_func_name

  /** The name at the root of an attribute chain, or "" when the chain is not rooted at a name. */
  function BaseName(e: Expr): (r: string)
    ensures ChainParts(e) != [] ==> r == ChainParts(e)[0]
    ensures ChainParts(e) == [] ==> r == ""
  {
    match e
    case Name(id) => id
    case Attribute(v, _) => BaseName(v)
    case _ => ""
  }

  /** The root of a chain is among the chain's collected names, and is the first
      dot-separated segment of its path. */
  lemma BaseNameCollected(e: Expr)
    requires ChainParts(e) != []
    ensures BaseName(e) in Names(e)
    ensures BaseName(e) == SplitOn(FullAttrPath(e), '.')[0]
  {
    NamesOfChain(e);
    var parts := ChainParts(e);
    assert parts[..1] == [parts[0]];
    SplitJoin(parts, '.');
  }

  /** The name shown for a called function: `f`, `base.attr` for an attribute
      call (the intermediate attributes of a longer chain are skipped), or
      `<unknown>`. */
  function FuncName(e: Expr): (r: string)
    ensures e.Name? ==> r == e.id
    ensures e.Attribute? ==> r == BaseName(e.value) + "." + e.attr
    ensures !e.Name? && !e.Attribute? ==> r == "<unknown>"
    ensures r != ""
  {
    match e
    case Name(id) => id
    case Attribute(v, attr) => BaseName(v) + "." + attr
    case _ => "<unknown>"
  }

  /** For a call through a chain of two or more attributes, the displayed name is not the
      chain's path: `self.helper.run` is shown as `self.run`. */
  lemma FuncNameSkipsMiddle()
    ensures FuncName(Attribute(Attribute(Name("self"), "helper"), "run")) == "self.run"
    ensures FullAttrPath(Attribute(Attribute(Name("self"), "helper"), "run")) == "self.helper.run"
  {
  }

  // ---------------------------------------------------------------------------
  // the collector itself: a visitor that adds to one set as it goes

  /** NameCollector().visit(e), adding to `names`. */
  method Collect(e: Expr, names: set<string>) returns (out: set<string>)
    ensures out == names + Names(e)
    decreases e
  {
    match e
    case Name(id) =>
      out := names + {id};
    case Attribute(v, _) =>
      out := names;
      var fullPath := FullAttrPath(e);
      if fullPath != "" {
        out := out + {fullPath};
        var parts := SplitOn(fullPath, '.');
        // for i in range(len(parts) - 1, 0, -1)
        for i := |parts| downto 1
          invariant out == names + {fullPath} + set k | i <= k < |parts| :: JoinWith(parts[..k], '.')
        {
          out := out + {JoinWith(parts[..i], '.')};
        }
      }
      out := Collect(v, out);
    case Call(f, args, keywords, _) =>
      out := Collect(f, names);
      out := CollectAll(args, out);
      out := CollectAll(keywords, out);
    case Comp(_, _, generators) =>
      out := names;
      for j := 0 to |generators|
        invariant out == names + IterNames(generators[..j])
      {
        out := Collect(generators[j].iter, out);
        IterNamesSnoc(generators[..j], generators[j]);
        assert generators[..j + 1] == generators[..j] + [generators[j]];
      }
      assert generators[..|generators|] == generators;
    case Other(children) =>
      out := CollectAll(children, names);
  }

  /** The generic visit of a list of sub-expressions, in order. */
  method CollectAll(es: seq<Expr>, names: set<string>) returns (out: set<string>)
    ensures out == names + NamesAll(es)
    decreases es
  {
    out := names;
    for j := 0 to |es|
      invariant out == names + NamesAll(es[..j])
    {
      out := Collect(es[j], out);
      NamesAllSnoc(es[..j], es[j]);
      assert es[..j + 1] == es[..j] + [es[j]];
    }
    assert es[..|es|] == es;
  }

  /** `_get_names_from_expr(expr)`: a fresh collector run over one expression. */
  method GetNamesFromExpr(e: Expr) returns (names: set<string>)
    ensures names == Names(e)
  {
    names := Collect(e, {});
  }

  lemma {:induction false} NamesAllSnoc(es: seq<Expr>, e: Expr)
    ensures NamesAll(es + [e]) == NamesAll(es) + Names(e)
    decreases |es|
  {
    if es == [] {
      assert [e][1..] == [];
    } else {
      assert (es + [e])[1..] == es[1..] + [e];
      NamesAllSnoc(es[1..], e);
    }
  }

  lemma {:induction false} IterNamesSnoc(gs: seq<Comprehension>, g: Comprehension)
    ensures IterNames(gs + [g]) == IterNames(gs) + Names(g.iter)
    decreases |gs|
  {
    if gs == [] {
      assert [g][1..] == [];
    } else {
      assert (gs + [g])[1..] == gs[1..] + [g];
      IterNamesSnoc(gs[1..], g);
    }
  }

  /** `arg_vars.update(_get_names_from_expr(arg))` for each argument in turn. */
  method ArgNames(args: seq<Expr>) returns (argVars: set<string>)
    ensures argVars == NamesAll(args)
  {
    argVars := {};
    for j := 0 to |args|
      invariant argVars == NamesAll(args[..j])
    {
      var names := GetNamesFromExpr(args[j]);
      argVars := argVars + names;
      NamesAllSnoc(args[..j], args[j]);
      assert args[..j + 1] == args[..j] + [args[j]];
    }
    assert args[..|args|] == args;
  }

  /** `_filter_most_specific(names)`: each name is checked against every other name
      and kept unless one of them starts with it followed by a dot. */
  method MostSpecific(names: set<string>) returns (result: set<string>)
    ensures result == FilterMostSpecific(names)
  {
    if names == {} {
      return names;
    }
    result := {};
    var todo := names;
    while todo != {}
      invariant todo <= names
      invariant forall n :: n in result <==> n in names - todo && n in FilterMostSpecific(names)
      decreases |todo|
    {
      var name :| name in todo;
      var isPrefix := false;
      var others := names;
      while others != {}
        invariant others <= names
        invariant isPrefix <==> exists o :: o in names - others && o != name && ExtendsPath(o, name)
        decreases |others|
      {
        var other :| other in others;
        if other != name && ExtendsPath(other, name) {
          isPrefix := true;
          break;
        }
        others := others - {other};
      }
      if !isPrefix {
        result := result + {name};
      }
      todo := todo - {name};
    }
  }
}
