/**
 The scanner for memory queries without user scoping.  A syntax tree is a list of nodes in the
 breadth-first order of ast.walk; each node but the root names its parent.
 */
module Scoping {
  import opened Options
  import opened Sorting
  import opened Strings

  datatype Keyword = Keyword(arg: Option<string>, value: nat)

  /** Parameters are the positional, positional-only and keyword-only ones. */
  datatype Kind =
    | Function(name: string, params: seq<string>, docstring: Option<string>, endLine: Option<nat>)
    | Call(func: nat, args: seq<nat>, keywords: seq<Keyword>)
    | Name(id: string)
    | Attribute(value: nat, attr: string)
    | Compare(left: nat)
    | Other

  datatype Node = Node(parent: nat, line: nat, kind: Kind)

  /** For each line the comment on it, from its number sign on; an empty text where there is none. */
  datatype Source = Source(nodes: seq<Node>, lines: seq<string>, comments: seq<string>, isSpace: char -> bool)

  datatype Violation = Violation(function_: string, dml: string, table: string, line: nat)

  const DML_NAMES: set<string> := {"select", "update", "delete", "insert"}

  const CHAIN_NAMES: set<string> := {"where", "values"}

  const CROSS_USER_MARKER := "scoped: cross-user"

  const USER_ID := "user_id"

  // ---------- The tree ----------

  /** Every node but the first stands below an earlier one. */
  ghost predicate ParentsFit(nodes: seq<Node>) {
    nodes != [] && forall k | 0 < k < |nodes| :: nodes[k].parent < k
  }

  /** A node refers to nodes of the tree, and the left side of a comparison is a part of it. */
  ghost predicate KindsFit(nodes: seq<Node>) {
    && (forall k | 0 <= k < |nodes| && nodes[k].kind.Function? :: nodes[k].line > 0)
    && (forall k | 0 <= k < |nodes| && nodes[k].kind.Call? :: nodes[k].kind.func < |nodes|)
    && (forall k | 0 <= k < |nodes| && nodes[k].kind.Attribute? :: nodes[k].kind.value < |nodes|)
    && (forall k | 0 <= k < |nodes| && nodes[k].kind.Compare? ::
          k < nodes[k].kind.left < |nodes| && nodes[nodes[k].kind.left].parent == k)
  }

  /** Nothing, or what stands on the line from some number sign on. */
  ghost predicate IsComment(line: string, comment: string) {
    comment == "" || exists i | 0 <= i < |line| :: line[i] == '#' && line[i..] == comment
  }

  ghost predicate WellFormed(src: Source) {
    && ParentsFit(src.nodes)
    && KindsFit(src.nodes)
    && |src.comments| == |src.lines|
    && forall i | 0 <= i < |src.lines| :: IsComment(src.lines[i], src.comments[i])
  }

  /** The node or a descendant of it. */
  predicate Under(src: Source, top: nat, k: nat)
    decreases k
  {
    k < |src.nodes| && (k == top || (src.nodes[k].parent < k && Under(src, top, src.nodes[k].parent)))
  }

  predicate IsFunction(src: Source, k: nat) {
    k < |src.nodes| && src.nodes[k].kind.Function?
  }

  predicate IsCall(src: Source, k: nat) {
    k < |src.nodes| && src.nodes[k].kind.Call?
  }

  ghost predicate Ascending(s: seq<nat>) {
    forall i, j | 0 <= i < j < |s| :: s[i] < s[j]
  }

  /** The numbers below n that have a property, in order. */
  function Filter(p: nat -> bool, n: nat): (r: seq<nat>)
    ensures Ascending(r)
    ensures forall k: nat :: k in r <==> k < n && p(k)
    ensures forall i | 0 <= i < |r| :: r[i] < n
  {
    if n == 0 then []
    else
      var before := Filter(p, n - 1);
      assert forall i | 0 <= i < |before| :: before[i] in before;
      if p(n - 1) then before + [n - 1] else before
  }

  function Walk(src: Source, top: nat): (r: seq<nat>)
    ensures Ascending(r)
    ensures forall k: nat :: k in r <==> Under(src, top, k)
    ensures forall i | 0 <= i < |r| :: r[i] < |src.nodes|
  {
    Filter((k: nat) => Under(src, top, k), |src.nodes|)
  }

  lemma {:induction false} AscendingUnique(a: seq<nat>, b: seq<nat>)
    requires Ascending(a) && Ascending(b) && forall k: nat :: k in a <==> k in b
    ensures a == b
  {
    assert a != [] ==> a[0] in b;
    assert b != [] ==> b[0] in a;
    if a == [] {
    } else {
      assert a[0] == b[0];
      forall k: nat
        ensures k in a[1..] <==> k in b[1..]
      {
        assert a == [a[0]] + a[1..] && b == [b[0]] + b[1..];
        assert k in a <==> k == a[0] || k in a[1..];
        assert k in b <==> k == b[0] || k in b[1..];
        assert a[0] !in a[1..] && b[0] !in b[1..];
      }
      AscendingUnique(a[1..], b[1..]);
      assert a == [a[0]] + a[1..] && b == [b[0]] + b[1..];
    }
  }

  lemma {:induction false} RootIsOnTop(src: Source, k: nat)
    requires WellFormed(src) && k < |src.nodes|
    ensures Under(src, 0, k)
    decreases k
  {
    if k == 0 {
    } else {
      RootIsOnTop(src, src.nodes[k].parent);
    }
  }

  // ---------- Names, tables and queries ----------

  function NamesUnder(src: Source, top: nat): set<string> {
    set k | k in Walk(src, top) && src.nodes[k].kind.Name? :: src.nodes[k].kind.id
  }

  function DmlName(src: Source, call: nat): Option<string>
    requires WellFormed(src) && IsCall(src, call)
  {
    match src.nodes[src.nodes[call].kind.func].kind
    case Name(id) => if id in DML_NAMES then Some(id) else None
    case Attribute(_, attr) => if attr in DML_NAMES then Some(attr) else None
    case _ => None
  }

  /** Every name in an argument or in the value of a keyword argument. */
  function Referenced(src: Source, call: nat): set<string>
    requires IsCall(src, call)
  {
    (set i, name | 0 <= i < |src.nodes[call].kind.args| && name in NamesUnder(src, src.nodes[call].kind.args[i]) :: name)
    + (set i, name | 0 <= i < |src.nodes[call].kind.keywords|
                     && name in NamesUnder(src, src.nodes[call].kind.keywords[i].value) :: name)
  }

  /** The scoped tables among the names, in alphabetical order. */
  function Matched(names: set<string>): seq<string> {
    (if "memory_facts" in names then ["memory_facts"] else [])
    + (if "memory_insights" in names then ["memory_insights"] else [])
  }

  /** A call that selects from or changes a scoped table. */
  predicate Query(src: Source, call: nat)
    requires WellFormed(src)
  {
    IsCall(src, call) && DmlName(src, call).Some? && Matched(Referenced(src, call)) != []
  }

  method CollectReferenced(src: Source, call: nat) returns (names: set<string>)
    requires IsCall(src, call)
    ensures names == Referenced(src, call)
  {
    var args, keywords := src.nodes[call].kind.args, src.nodes[call].kind.keywords;
    names := {};
    for i := 0 to |args|
      invariant names == set j, name | 0 <= j < i && name in NamesUnder(src, args[j]) :: name
    {
      names := names + NamesUnder(src, args[i]);
    }
    ghost var inArgs := names;
    for i := 0 to |keywords|
      invariant names == inArgs + set j, name | 0 <= j < i && name in NamesUnder(src, keywords[j].value) :: name
    {
      names := names + NamesUnder(src, keywords[i].value);
    }
  }

  // ---------- What excuses a function ----------

  predicate IsAttribute(src: Source, k: nat, attr: string) {
    k < |src.nodes| && src.nodes[k].kind.Attribute? && src.nodes[k].kind.attr == attr
  }

  predicate AttributeUnder(src: Source, top: nat, attr: string) {
    exists k | k in Walk(src, top) :: IsAttribute(src, k, attr)
  }

  /** A positional argument may use a name or an attribute, a keyword argument its own name or a name. */
  predicate MentionsUser(src: Source, call: nat)
    requires IsCall(src, call)
  {
    || (exists i | 0 <= i < |src.nodes[call].kind.args| ::
          USER_ID in NamesUnder(src, src.nodes[call].kind.args[i])
          || AttributeUnder(src, src.nodes[call].kind.args[i], USER_ID))
    || (exists i | 0 <= i < |src.nodes[call].kind.keywords| ::
          src.nodes[call].kind.keywords[i].arg == Some(USER_ID)
          || USER_ID in NamesUnder(src, src.nodes[call].kind.keywords[i].value))
  }

  predicate ChainCall(src: Source, call: nat)
    requires WellFormed(src)
  {
    IsCall(src, call)
    && var func := src.nodes[src.nodes[call].kind.func].kind;
       func.Attribute? && func.attr in CHAIN_NAMES
  }

  /** Somewhere in the function a where or values call mentions the user. */
  predicate HasUserClause(src: Source, f: nat)
    requires WellFormed(src)
  {
    exists k | k in Walk(src, f) :: ChainCall(src, k) && MentionsUser(src, k)
  }

  method CallMentionsUser(src: Source, call: nat) returns (found: bool)
    requires IsCall(src, call)
    ensures found <==> MentionsUser(src, call)
  {
    hide Walk, NamesUnder;
    var args, keywords := src.nodes[call].kind.args, src.nodes[call].kind.keywords;
    for i := 0 to |args|
      invariant forall j | 0 <= j < i :: USER_ID !in NamesUnder(src, args[j]) && !AttributeUnder(src, args[j], USER_ID)
    {
      if USER_ID in NamesUnder(src, args[i]) {
        return true;
      }
      var walk := Walk(src, args[i]);
      for w := 0 to |walk|
        invariant forall j | 0 <= j < w :: !IsAttribute(src, walk[j], USER_ID)
      {
        if IsAttribute(src, walk[w], USER_ID) {
          assert walk[w] in walk;
          return true;
        }
      }
    }
    for i := 0 to |keywords|
      invariant forall j | 0 <= j < i ::
        keywords[j].arg != Some(USER_ID) && USER_ID !in NamesUnder(src, keywords[j].value)
    {
      if keywords[i].arg == Some(USER_ID) {
        return true;
      }
      if USER_ID in NamesUnder(src, keywords[i].value) {
        return true;
      }
    }
    found := false;
  }

  method WhereArgsContainUserId(src: Source, f: nat) returns (found: bool)
    requires WellFormed(src)
    ensures found <==> HasUserClause(src, f)
  {
    hide Walk, NamesUnder, AttributeUnder;
    var walk := Walk(src, f);
    for w := 0 to |walk|
      invariant forall k | k in walk[..w] :: !(ChainCall(src, k) && MentionsUser(src, k))
    {
      var node := walk[w];
      assert walk[..w + 1] == walk[..w] + [node];
      if !IsCall(src, node) {
        continue;
      }
      var func := src.nodes[src.nodes[node].kind.func].kind;
      if !func.Attribute? || func.attr !in CHAIN_NAMES {
        continue;
      }
      var mentioned := CallMentionsUser(src, node);
      if mentioned {
        assert node in walk;
        return true;
      }
    }
    assert walk[..|walk|] == walk;
    found := false;
  }

  // ---------- Annotations ----------

  function LeftStrip(isSpace: char -> bool, s: string): string {
    if s != "" && isSpace(s[0]) then LeftStrip(isSpace, s[1..]) else s
  }

  predicate MarkedComment(src: Source, i: nat)
    requires i < |src.lines|
  {
    var stripped := LeftStrip(src.isSpace, src.lines[i]);
    "#" <= stripped && Contains(stripped, CROSS_USER_MARKER)
  }

  /** The lines of a function, from the one that declares it; a slice that runs over is cut. */
  function LastLine(src: Source, f: nat): nat
    requires IsFunction(src, f)
  {
    var end := src.nodes[f].kind.endLine;
    if end.Some? && end.value != 0 && end.value < |src.lines| then end.value else |src.lines|
  }

  /** The docstring says so, or a comment between the first and the last line of the function. */
  predicate Annotated(src: Source, f: nat)
    requires WellFormed(src) && IsFunction(src, f)
  {
    || (src.nodes[f].kind.docstring.Some? && Contains(src.nodes[f].kind.docstring.value, CROSS_USER_MARKER))
    || exists i: nat | src.nodes[f].line - 1 <= i < LastLine(src, f) :: MarkedComment(src, i)
  }

  lemma EmptyContainsNothing()
    ensures !Contains("", CROSS_USER_MARKER)
  {
  }

  method HasCrossUserAnnotation(src: Source, f: nat) returns (found: bool)
    requires WellFormed(src) && IsFunction(src, f)
    ensures found <==> Annotated(src, f)
  {
    hide Contains, LeftStrip;
    var docstring := src.nodes[f].kind.docstring;
    if docstring.Some? && docstring.value != "" && Contains(docstring.value, CROSS_USER_MARKER) {
      return true;
    }
    EmptyContainsNothing();
    var start, end := src.nodes[f].line - 1, LastLine(src, f);
    if start >= end {
      return false;
    }
    for i := start to end
      invariant forall j: nat | start <= j < i :: !MarkedComment(src, j)
    {
      var stripped := LeftStrip(src.isSpace, src.lines[i]);
      if "#" <= stripped && Contains(stripped, CROSS_USER_MARKER) {
        assert MarkedComment(src, i);
        return true;
      }
    }
    found := false;
  }

  // ---------- The functions that are scanned ----------

  /** No other function has it under it. */
  predicate Outermost(src: Source, f: nat) {
    IsFunction(src, f) && forall g: nat | g < |src.nodes| && IsFunction(src, g) && Under(src, g, f) :: g == f
  }

  function Kept(src: Source): seq<nat> {
    Filter((k: nat) => Outermost(src, k), |src.nodes|)
  }

  function Snoc(s: seq<nat>, x: nat): (r: seq<nat>)
    requires Ascending(s) && forall k | k in s :: k < x
    ensures Ascending(r) && forall k: nat :: k in r <==> k in s || k == x
  {
    assert forall i | 0 <= i < |s| :: s[i] in s;
    s + [x]
  }

  /** The functions that stand under another one of the list. */
  method CollectNested(src: Source, functions: seq<nat>) returns (nested: set<nat>)
    ensures forall k: nat :: k in nested <==> Nested(src, functions, k)
  {
    hide Under, Walk;
    nested := {};
    for i := 0 to |functions|
      invariant forall k: nat :: k in nested <==> Nested(src, functions[..i], k)
    {
      var f := functions[i];
      assert functions[..i + 1] == functions[..i] + [f];
      var walk := Walk(src, f);
      ghost var before := nested;
      for w := 0 to |walk|
        invariant forall k: nat :: k in nested <==> k in before || (IsFunction(src, k) && k in walk[..w] && k != f)
      {
        assert walk[..w + 1] == walk[..w] + [walk[w]];
        if walk[w] == f {
          continue;
        }
        if IsFunction(src, walk[w]) {
          nested := nested + {walk[w]};
        }
      }
      assert walk[..|walk|] == walk;
      forall k: nat
        ensures k in nested <==> Nested(src, functions[..i + 1], k)
      {
        NestedStep(src, functions[..i], f, k);
      }
    }
    assert functions[..|functions|] == functions;
  }

  method CollectTopLevelFuncs(src: Source) returns (kept: seq<nat>)
    requires WellFormed(src)
    ensures kept == Kept(src)
  {
    hide Walk, Under;
    var walk := Walk(src, 0);
    var result: seq<nat> := [];
    for i := 0 to |walk|
      invariant Ascending(result) && forall k: nat :: k in result <==> k in walk[..i] && IsFunction(src, k)
    {
      assert walk[..i + 1] == walk[..i] + [walk[i]];
      assert forall k | k in result :: k < walk[i];
      if IsFunction(src, walk[i]) {
        result := Snoc(result, walk[i]);
      }
    }
    assert walk[..|walk|] == walk;
    forall k: nat
      ensures k in result <==> IsFunction(src, k)
    {
      if IsFunction(src, k) {
        RootIsOnTop(src, k);
      }
    }
    var nested := CollectNested(src, result);
    kept := [];
    for i := 0 to |result|
      invariant Ascending(kept) && forall k: nat :: k in kept <==> k in result[..i] && k !in nested
    {
      assert result[..i + 1] == result[..i] + [result[i]];
      assert forall k | k in kept :: k < result[i];
      if result[i] !in nested {
        kept := Snoc(kept, result[i]);
      }
    }
    assert result[..|result|] == result;
    AscendingUnique(kept, Kept(src));
  }

  ghost predicate Nested(src: Source, functions: seq<nat>, k: nat) {
    IsFunction(src, k) && exists f :: f in functions && f != k && Under(src, f, k)
  }

  lemma {:induction false} NestedStep(src: Source, functions: seq<nat>, f: nat, k: nat)
    ensures Nested(src, functions + [f], k)
       <==> Nested(src, functions, k) || (IsFunction(src, k) && f != k && Under(src, f, k))
  {
    hide Under;
    var more := functions + [f];
    assert f in more;
    if g :| g in functions && g != k && Under(src, g, k) {
      assert g in more;
    }
  }

  // ---------- The scan ----------

  predicate HasUserParam(src: Source, f: nat) {
    exists g | g in Walk(src, f) :: IsFunction(src, g) && USER_ID in src.nodes[g].kind.params
  }

  /** Annotated, or with a user clause, or with the user as a parameter, anywhere in the function. */
  predicate Excused(src: Source, f: nat)
    requires WellFormed(src) && IsFunction(src, f)
  {
    Annotated(src, f) || HasUserClause(src, f) || HasUserParam(src, f)
  }

  /** The violation of a query for one of its tables. */
  function ViolationFor(src: Source, f: nat, dml: string, call: nat): string -> Violation
    requires IsFunction(src, f) && IsCall(src, call)
  {
    (table: string) => Violation(src.nodes[f].kind.name, dml, table, src.nodes[call].line)
  }

  ghost function CallViolations(src: Source, f: nat): nat -> seq<Violation>
    requires WellFormed(src) && IsFunction(src, f)
  {
    (c: nat) =>
      if Query(src, c) && !Excused(src, f)
      then Map(ViolationFor(src, f, DmlName(src, c).value, c), Matched(Referenced(src, c)))
      else []
  }

  ghost function FunctionViolations(src: Source): nat -> seq<Violation>
    requires WellFormed(src)
  {
    (f: nat) => if IsFunction(src, f) then Collect(CallViolations(src, f), Walk(src, f)) else []
  }

  ghost function ViolationsOf(src: Source): seq<Violation>
    requires WellFormed(src)
  {
    Collect(FunctionViolations(src), Kept(src))
  }

  method FindUserParam(src: Source, f: nat) returns (found: bool)
    ensures found <==> HasUserParam(src, f)
  {
    hide Under;
    var walk := Walk(src, f);
    for w := 0 to |walk|
      invariant forall j | 0 <= j < w :: !(IsFunction(src, walk[j]) && USER_ID in src.nodes[walk[j]].kind.params)
    {
      if IsFunction(src, walk[w]) && USER_ID in src.nodes[walk[w]].kind.params {
        assert walk[w] in walk;
        return true;
      }
    }
    found := false;
  }

  lemma {:induction false} MapLast<T, U>(f: T -> U, s: seq<T>, x: T)
    ensures Map(f, s + [x]) == Map(f, s) + [f(x)]
  {
  }

  /** One call: a violation for every scoped table it names, unless its function is excused. */
  method ScanCall(src: Source, f: nat, call: nat, annotated: bool) returns (violations: seq<Violation>)
    requires WellFormed(src) && IsFunction(src, f) && annotated == Annotated(src, f)
    ensures violations == CallViolations(src, f)(call)
  {
    hide Walk, Under, Annotated, HasUserClause, HasUserParam, Referenced, Matched, IsComment, DmlName, ViolationFor;
    violations := [];
    if !IsCall(src, call) {
      return;
    }
    var dml := DmlName(src, call);
    if dml == None {
      return;
    }
    var referenced := CollectReferenced(src, call);
    var matched := Matched(referenced);
    if matched == [] {
      return;
    }
    var violationFor := ViolationFor(src, f, dml.value, call);
    for i := 0 to |matched|
      invariant violations == if Excused(src, f) then [] else Map(violationFor, matched[..i])
    {
      assert matched[..i + 1] == matched[..i] + [matched[i]];
      MapLast(violationFor, matched[..i], matched[i]);
      if annotated {
        continue;
      }
      var clause := WhereArgsContainUserId(src, f);
      if clause {
        continue;
      }
      var param := FindUserParam(src, f);
      if param {
        continue;
      }
      violations := violations + [violationFor(matched[i])];
    }
    assert matched[..|matched|] == matched;
  }

  method ScanFunction(src: Source, f: nat) returns (violations: seq<Violation>)
    requires WellFormed(src) && IsFunction(src, f)
    ensures violations == FunctionViolations(src)(f)
  {
    hide Walk, Under, Annotated, CallViolations, WellFormed;
    var annotated := HasCrossUserAnnotation(src, f);
    var walk := Walk(src, f);
    violations := [];
    for w := 0 to |walk|
      invariant violations == Collect(CallViolations(src, f), walk[..w])
    {
      var found := ScanCall(src, f, walk[w], annotated);
      CollectLast(CallViolations(src, f), walk[..w], walk[w]);
      assert walk[..w + 1] == walk[..w] + [walk[w]];
      violations := violations + found;
    }
    assert walk[..|walk|] == walk;
  }

  /** A file that does not parse has no violations. */
  method ScanFile(parsed: Option<Source>) returns (violations: seq<Violation>)
    requires parsed.Some? ==> WellFormed(parsed.value)
    ensures violations == if parsed.Some? then ViolationsOf(parsed.value) else []
  {
    hide Under, FunctionViolations, WellFormed, Collect;
    violations := [];
    if parsed == None {
      return;
    }
    var src := parsed.value;
    var kept := CollectTopLevelFuncs(src);
    NothingCollected(FunctionViolations(src));
    for i := 0 to |kept|
      invariant violations == Collect(FunctionViolations(src), kept[..i])
    {
      var f := kept[i];
      assert f in kept;
      var found := ScanFunction(src, f);
      CollectLast(FunctionViolations(src), kept[..i], f);
      assert kept[..i + 1] == kept[..i] + [f];
      violations := violations + found;
    }
    assert kept[..|kept|] == kept;
  }

  // ---------- Every node has at most one scanned function above it ----------

  /** The topmost function that stands above a node or is that node. */
  function TopFunction(src: Source, k: nat): Option<nat>
    decreases k
  {
    if k >= |src.nodes| then None
    else
      var above := if src.nodes[k].parent < k then TopFunction(src, src.nodes[k].parent) else None;
      if above.Some? then above else if IsFunction(src, k) then Some(k) else None
  }

  lemma {:induction false} NoFunctionAbove(src: Source, k: nat)
    requires WellFormed(src)
    ensures TopFunction(src, k).None? <==> forall g: nat | IsFunction(src, g) :: !Under(src, g, k)
    decreases k
  {
    if k < |src.nodes| {
      if 0 < k {
        NoFunctionAbove(src, src.nodes[k].parent);
      }
      if IsFunction(src, k) {
        assert Under(src, k, k);
      }
    }
  }

  lemma {:induction false} UnderIsLater(src: Source, top: nat, k: nat)
    requires Under(src, top, k)
    ensures top <= k < |src.nodes|
    decreases k
  {
    if k != top {
      UnderIsLater(src, top, src.nodes[k].parent);
    }
  }

  /** The scanned function above a node is its topmost one, so there is never a second. */
  lemma {:induction false} KeptAboveIff(src: Source, k: nat, f: nat)
    requires WellFormed(src)
    ensures TopFunction(src, k) == Some(f) <==> Outermost(src, f) && Under(src, f, k)
    decreases k
  {
    if k < |src.nodes| {
      var p := src.nodes[k].parent;
      if k > 0 {
        KeptAboveIff(src, p, f);
        NoFunctionAbove(src, p);
        if TopFunction(src, p).Some? {
          var h := TopFunction(src, p).value;
          KeptAboveIff(src, p, h);
          UnderIsLater(src, h, p);
          assert Under(src, h, k);
        }
      }
      if Outermost(src, f) && Under(src, f, k) && f != k {
        assert Under(src, f, p);
      }
    }
  }

  /** The kept functions: none stands under another, and every function has exactly one of them above it. */
  lemma {:induction false} KeptFunctionsCover(src: Source, g: nat)
    requires WellFormed(src) && IsFunction(src, g)
    ensures forall f, h | f in Kept(src) && h in Kept(src) && Under(src, f, h) :: f == h
    ensures exists f :: f in Kept(src) && Under(src, f, g)
    ensures forall f, h | f in Kept(src) && h in Kept(src) && Under(src, f, g) && Under(src, h, g) :: f == h
  {
    assert Under(src, g, g);
    NoFunctionAbove(src, g);
    var f := TopFunction(src, g).value;
    KeptAboveIff(src, g, f);
    assert IsFunction(src, f) && f in Kept(src);
    forall h | h in Kept(src) && Under(src, h, g)
      ensures h == f
    {
      KeptAboveIff(src, g, h);
    }
  }

  // ---------- What the scan looks at, and what an empty result means ----------

  function WalkOf(src: Source): nat -> seq<nat> {
    (f: nat) => Walk(src, f)
  }

  /** Every node that the scan walks over, in order, with repetitions if there were any. */
  ghost function Examined(src: Source): seq<nat> {
    Collect(WalkOf(src), Kept(src))
  }

  /** How often a node occurs. */
  function Times(s: seq<nat>, k: nat): nat { multiset(s)[k] }

  lemma {:induction false} AscendingOnce(s: seq<nat>, x: nat)
    requires Ascending(s)
    ensures Times(s, x) == if x in s then 1 else 0
  {
    if s == [] {
    } else {
      AscendingOnce(s[1..], x);
      assert s == [s[0]] + s[1..];
      assert s[0] !in s[1..];
    }
  }

  /** How often a walk over some of the kept functions meets a node: whether it meets its topmost one. */
  lemma {:induction false} WalkedOnce(src: Source, fs: seq<nat>, k: nat)
    requires WellFormed(src) && Ascending(fs) && forall f | f in fs :: Outermost(src, f)
    ensures Times(Collect(WalkOf(src), fs), k)
         == if TopFunction(src, k).Some? && TopFunction(src, k).value in fs then 1 else 0
  {
    hide Outermost, Under, TopFunction, WellFormed;
    if fs == [] {
    } else {
      var f := fs[0];
      assert fs == [f] + fs[1..];
      assert f !in fs[1..];
      WalkedOnce(src, fs[1..], k);
      AscendingOnce(Walk(src, f), k);
      KeptAboveIff(src, k, f);
      assert Outermost(src, f);
      assert Collect(WalkOf(src), fs) == Walk(src, f) + Collect(WalkOf(src), fs[1..]);
    }
  }

  ghost predicate InFunction(src: Source, k: nat) {
    exists g: nat :: IsFunction(src, g) && Under(src, g, k)
  }

  lemma {:induction false} TopIsKept(src: Source, k: nat)
    requires WellFormed(src)
    ensures TopFunction(src, k).Some? <==> InFunction(src, k)
    ensures TopFunction(src, k).Some? ==> TopFunction(src, k).value in Kept(src)
  {
    hide Under, TopFunction;
    NoFunctionAbove(src, k);
    if TopFunction(src, k).Some? {
      KeptAboveIff(src, k, TopFunction(src, k).value);
    }
  }

  /** A node inside some function is looked at exactly once, a node outside of all never. */
  lemma {:induction false} ExaminedOnce(src: Source, k: nat)
    requires WellFormed(src)
    ensures Times(Examined(src), k) == if InFunction(src, k) then 1 else 0
  {
    hide InFunction, TopFunction, WalkOf, Outermost, WellFormed, Filter, Under;
    assert Ascending(Kept(src)) && forall f | f in Kept(src) :: Outermost(src, f);
    WalkedOnce(src, Kept(src), k);
    TopIsKept(src, k);
  }

  lemma {:induction false} CallCleanIff(src: Source, f: nat, c: nat)
    requires WellFormed(src) && IsFunction(src, f)
    ensures CallViolations(src, f)(c) == [] <==> !(Query(src, c) && !Excused(src, f))
  {
    hide Excused, Referenced, DmlName, Walk;
    if Query(src, c) && !Excused(src, f) {
      var matched := Matched(Referenced(src, c));
      assert |Map(ViolationFor(src, f, DmlName(src, c).value, c), matched)| == |matched|;
    }
  }

  lemma {:induction false} FunctionCleanIff(src: Source, f: nat)
    requires WellFormed(src) && Outermost(src, f)
    ensures FunctionViolations(src)(f) == []
       <==> forall c: nat | Query(src, c) && TopFunction(src, c) == Some(f) :: Excused(src, f)
  {
    hide Under, WellFormed, Excused, Query, TopFunction;
    CollectEmptyIff(CallViolations(src, f), Walk(src, f));
    forall c: nat
      ensures CallViolations(src, f)(c) == [] <==> !(Query(src, c) && !Excused(src, f))
      ensures c in Walk(src, f) <==> TopFunction(src, c) == Some(f)
    {
      CallCleanIff(src, f, c);
      KeptAboveIff(src, c, f);
    }
  }

  /**
   The scan finds nothing exactly when every query inside a function stands in a function that is
   excused: the outermost one around it.  Queries outside of all functions have no say.
   */
  lemma {:induction false} CleanIff(src: Source)
    requires WellFormed(src)
    ensures ViolationsOf(src) == []
       <==> forall c: nat | Query(src, c) && TopFunction(src, c).Some? ::
              IsFunction(src, TopFunction(src, c).value) && Excused(src, TopFunction(src, c).value)
  {
    hide Under, WellFormed, Excused, Query, TopFunction;
    forall f | f in Kept(src)
      ensures FunctionViolations(src)(f) == []
         <==> forall c: nat | Query(src, c) && TopFunction(src, c) == Some(f) :: Excused(src, f)
    {
      FunctionCleanIff(src, f);
    }
    CollectEmptyIff(FunctionViolations(src), Kept(src));
    forall c: nat | TopFunction(src, c).Some?
      ensures TopFunction(src, c).value in Kept(src)
    {
      TopIsKept(src, c);
    }
  }

  // ---------- One excuse for a whole function ----------

  /** One user clause or parameter excuses every query of the function, its own and its closures'. */
  lemma {:induction false} ExcuseIsShared(src: Source, f: nat, g: nat)
    requires WellFormed(src) && f in Kept(src) && Under(src, f, g)
    requires (IsFunction(src, g) && USER_ID in src.nodes[g].kind.params) || (ChainCall(src, g) && MentionsUser(src, g))
    ensures forall c: nat | Under(src, f, c) :: CallViolations(src, f)(c) == []
  {
    assert g in Walk(src, f);
    assert HasUserParam(src, f) || HasUserClause(src, f);
  }
}
