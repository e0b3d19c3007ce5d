/**
 The gate aggregator: one combined JUnit file per layer decides, the files of named sub-tools only
 inform.  XML is a tree; reading an attribute as an integer is a parameter.
 */
module GateReport {

  datatype Element = Element(tag: string, attrs: map<string, string>, children: seq<Element>)

  /** What is found under a file name. */
  datatype File = Missing | Garbled | Xml(root: Element)

  datatype ToolStats = ToolStats(tests: int, failures: int, errors: int, skipped: int)

  datatype LayerResult = LayerResult(
    layer: nat, name: string, ok: bool, tools: map<string, ToolStats>, missing: bool, stub: bool)

  datatype Severity = High | Critical

  datatype Title = LayerMissing | LayerGarbled | UnexpectedRoot(tag: string) | CaseTitle(name: string, message: string)

  datatype Finding = Finding(severity: Severity, tool: string, title: Title, layer: nat)

  datatype Layer = Layer(number: nat, slug: string, name: string)

  datatype Report = Report(ok: bool, layers: seq<LayerResult>, findings: seq<Finding>, productionReady: bool)

  type IntReader = string -> int

  const LAYERS: seq<Layer> := [
    Layer(0, "static-fast", "Static fast"),
    Layer(1, "license-bill", "License"),
    Layer(2, "unit-integration", "Unit + integration"),
    Layer(3, "security-static", "Security static"),
    Layer(4, "container-supplychain", "Container + supply chain"),
    Layer(5, "dast-offline", "DAST offline"),
    Layer(6, "dast-online", "DAST online"),
    Layer(7, "llm-security", "LLM security"),
    Layer(8, "auth-session", "Auth + session + crypto"),
    Layer(9, "gate-report", "Gate report")]

  const REPORT_LAYER: nat := 9

  const REQUIRED_LAYERS: set<nat> := {0, 1, 2, 3, 4, 5, 6, 7, 8}

  const SUB_TOOLS: map<nat, seq<string>> := map[
    0 := ["L0-pyright", "L0-ruff", "L0-hadolint"],
    4 := ["L4-trivy", "L4-syft", "L4-dockle"],
    5 := ["L5-schemathesis", "L5-idor-grid"],
    6 := ["L6-zap", "L6-nuclei", "L6-dos-redos", "L6-dos-decompression", "L6-dos-jsonbomb", "L6-dos-slowloris"],
    7 := ["L7-garak-sse", "L7-garak-json", "L7-llm-top10"],
    8 := ["L8-auth-session", "L8-auth-runtime-pytest"]]

  const DIGITS: string := "0123456789"

  function LayerFile(layer: Layer): string
    requires layer.number < 10
  {
    "L" + [DIGITS[layer.number]] + "-" + layer.slug + ".xml"
  }

  function SubFile(tool: string): string { tool + ".xml" }

  function FileAt(files: map<string, File>, name: string): File {
    if name in files then files[name] else Missing
  }

  // ---------- Walking a tree ----------

  function IterAll(es: seq<Element>, tag: string): seq<Element>
    decreases es, 1
  {
    if es == [] then [] else Iter(es[0], tag) + IterAll(es[1..], tag)
  }

  /** The elements with a tag, the root included, in document order. */
  function Iter(e: Element, tag: string): seq<Element>
    decreases e, 0
  {
    (if e.tag == tag then [e] else []) + IterAll(e.children, tag)
  }

  /** The direct children with a tag. */
  function FindAll(es: seq<Element>, tag: string): seq<Element> {
    if es == [] then [] else (if es[0].tag == tag then [es[0]] else []) + FindAll(es[1..], tag)
  }

  function Attr(e: Element, key: string, default: string): string {
    if key in e.attrs then e.attrs[key] else default
  }

  function IntAttr(intOf: IntReader, e: Element, key: string): int {
    if key in e.attrs then intOf(e.attrs[key]) else 0
  }

  // ---------- One suite ----------

  /** The counter of a suite, or the number of elements when the counter says zero. */
  function Effective(intOf: IntReader, suite: Element, key: string, tag: string): int {
    if IntAttr(intOf, suite, key) == 0 then |Iter(suite, tag)| else IntAttr(intOf, suite, key)
  }

  function StatsOf(intOf: IntReader, suite: Element): ToolStats {
    ToolStats(
      IntAttr(intOf, suite, "tests"),
      Effective(intOf, suite, "failures", "failure"),
      Effective(intOf, suite, "errors", "error"),
      Effective(intOf, suite, "skipped", "skipped"))
  }

  predicate Failing(intOf: IntReader, suite: Element) {
    StatsOf(intOf, suite).failures > 0 || StatsOf(intOf, suite).errors > 0
  }

  function ToolName(suite: Element): string {
    var name := Attr(suite, "name", "");
    if name == "" then "unknown" else name
  }

  function IsStub(suite: Element): bool {
    var cases := Iter(suite, "testcase");
    |cases| == 1 && FindAll(cases[0].children, "skipped") != [] && Attr(cases[0], "name", "") == "not-yet-implemented"
  }

  function Titled(es: seq<Element>, severity: Severity, tool: string, name: string, default: string, layer: nat)
    : seq<Finding>
  {
    if es == [] then []
    else [Finding(severity, tool, CaseTitle(name, Attr(es[0], "message", default)), layer)]
         + Titled(es[1..], severity, tool, name, default, layer)
  }

  /** A finding for every direct failure and every direct error of a test case. */
  function CaseFindings(case_: Element, tool: string, layer: nat): seq<Finding> {
    var name := Attr(case_, "name", "?");
    Titled(FindAll(case_.children, "failure"), High, tool, name, "failure", layer)
    + Titled(FindAll(case_.children, "error"), Critical, tool, name, "error", layer)
  }

  function CasesFindings(cases: seq<Element>, tool: string, layer: nat): seq<Finding> {
    if cases == [] then [] else CaseFindings(cases[0], tool, layer) + CasesFindings(cases[1..], tool, layer)
  }

  function SuiteFindings(suite: Element, layer: nat): seq<Finding> {
    CasesFindings(Iter(suite, "testcase"), ToolName(suite), layer)
  }

  // ---------- One layer ----------

  function SuitesFindings(suites: seq<Element>, layer: nat): seq<Finding> {
    if suites == [] then [] else SuiteFindings(suites[0], layer) + SuitesFindings(suites[1..], layer)
  }

  function SuitesTools(intOf: IntReader, suites: seq<Element>): map<string, ToolStats> {
    if suites == [] then map[]
    else SuitesTools(intOf, suites[..|suites| - 1])[ToolName(suites[|suites| - 1]) := StatsOf(intOf, suites[|suites| - 1])]
  }

  predicate SuiteRoot(root: Element) {
    root.tag == "testsuites" || root.tag == "testsuite"
  }

  function SuitesOf(root: Element): seq<Element> {
    if root.tag == "testsuites" then Iter(root, "testsuite") else if root.tag == "testsuite" then [root] else []
  }

  /** Present, readable, with the right root, and no suite with a positive failure or error count. */
  predicate Green(intOf: IntReader, file: File) {
    && file.Xml?
    && SuiteRoot(file.root)
    && forall i | 0 <= i < |SuitesOf(file.root)| :: !Failing(intOf, SuitesOf(file.root)[i])
  }

  predicate PureStub(file: File) {
    && file.Xml?
    && SuitesOf(file.root) != []
    && forall i | 0 <= i < |SuitesOf(file.root)| :: IsStub(SuitesOf(file.root)[i])
  }

  function FileFindings(file: File, layer: nat): seq<Finding> {
    match file
    case Missing => [Finding(Critical, "aggregator", LayerMissing, layer)]
    case Garbled => [Finding(Critical, "aggregator", LayerGarbled, layer)]
    case Xml(root) =>
      if SuiteRoot(root) then SuitesFindings(SuitesOf(root), layer)
      else [Finding(Critical, "aggregator", UnexpectedRoot(root.tag), layer)]
  }

  method CollectTitled(es: seq<Element>, severity: Severity, tool: string, name: string, default: string, layer: nat)
    returns (findings: seq<Finding>)
    ensures findings == Titled(es, severity, tool, name, default, layer)
  {
    findings := [];
    assert es[0..] == es;
    for i := 0 to |es|
      invariant Titled(es, severity, tool, name, default, layer)
             == findings + Titled(es[i..], severity, tool, name, default, layer)
    {
      assert es[i..][1..] == es[i + 1..];
      findings := findings + [Finding(severity, tool, CaseTitle(name, Attr(es[i], "message", default)), layer)];
    }
    assert es[|es|..] == [];
  }

  lemma {:induction false} CasesStep(cases: seq<Element>, tool: string, layer: nat, i: nat)
    requires i < |cases|
    ensures CasesFindings(cases[i..], tool, layer)
         == CaseFindings(cases[i], tool, layer) + CasesFindings(cases[i + 1..], tool, layer)
    ensures CasesFindings(cases[|cases|..], tool, layer) == []
  {
    assert cases[i..][1..] == cases[i + 1..];
  }

  lemma {:induction false} NoCases(tool: string, layer: nat)
    ensures CasesFindings([], tool, layer) == []
  {
  }

  method CollectCases(cases: seq<Element>, tool: string, layer: nat) returns (findings: seq<Finding>)
    ensures findings == CasesFindings(cases, tool, layer)
  {
    hide CasesFindings, Titled, FindAll;
    findings := [];
    assert cases[0..] == cases;
    for i := 0 to |cases|
      invariant CasesFindings(cases, tool, layer) == findings + CasesFindings(cases[i..], tool, layer)
      invariant i == |cases| && i > 0 ==> CasesFindings(cases[i..], tool, layer) == []
    {
      CasesStep(cases, tool, layer, i);
      var name := Attr(cases[i], "name", "?");
      var failures := CollectTitled(FindAll(cases[i].children, "failure"), High, tool, name, "failure", layer);
      var errors := CollectTitled(FindAll(cases[i].children, "error"), Critical, tool, name, "error", layer);
      ghost var rest := CasesFindings(cases[i + 1..], tool, layer);
      assert findings + ((failures + errors) + rest) == (findings + failures + errors) + rest;
      findings := findings + failures + errors;
    }
    if cases == [] {
      NoCases(tool, layer);
    }
  }

  /** The counters of a suite; an emitter that omits one has its elements counted instead. */
  method ReadStats(intOf: IntReader, suite: Element) returns (stats: ToolStats)
    ensures stats == StatsOf(intOf, suite)
  {
    hide Iter;
    stats := ToolStats(IntAttr(intOf, suite, "tests"), IntAttr(intOf, suite, "failures"),
                       IntAttr(intOf, suite, "errors"), IntAttr(intOf, suite, "skipped"));
    if stats.skipped == 0 {
      stats := stats.(skipped := |Iter(suite, "skipped")|);
    }
    if stats.failures == 0 {
      stats := stats.(failures := |Iter(suite, "failure")|);
    }
    if stats.errors == 0 {
      stats := stats.(errors := |Iter(suite, "error")|);
    }
  }

  lemma {:induction false} SuitesStep(intOf: IntReader, suites: seq<Element>, layer: nat, i: nat)
    requires i < |suites|
    ensures SuitesFindings(suites[i..], layer)
         == SuiteFindings(suites[i], layer) + SuitesFindings(suites[i + 1..], layer)
    ensures SuitesTools(intOf, suites[..i + 1])
         == SuitesTools(intOf, suites[..i])[ToolName(suites[i]) := StatsOf(intOf, suites[i])]
  {
    assert suites[i..][1..] == suites[i + 1..] && suites[..i + 1][..i] == suites[..i];
  }

  lemma {:induction false} NoSuites(intOf: IntReader, layer: nat)
    ensures SuitesFindings([], layer) == [] && SuitesTools(intOf, []) == map[]
  {
  }

  /** The suites of a layer: their tools, their findings, and whether none of them fails. */
  method ParseSuites(intOf: IntReader, suites: seq<Element>, layer: nat)
    returns (ok: bool, tools: map<string, ToolStats>, findings: seq<Finding>)
    ensures ok <==> forall j | 0 <= j < |suites| :: !Failing(intOf, suites[j])
    ensures tools == SuitesTools(intOf, suites)
    ensures findings == SuitesFindings(suites, layer)
  {
    hide SuitesFindings, SuitesTools, StatsOf, CasesFindings, Iter;
    ok, tools, findings := true, map[], [];
    NoSuites(intOf, layer);
    assert suites[0..] == suites && suites[..0] == [];
    for i := 0 to |suites|
      invariant ok <==> forall j | 0 <= j < i :: !Failing(intOf, suites[j])
      invariant tools == SuitesTools(intOf, suites[..i])
      invariant SuitesFindings(suites, layer) == findings + SuitesFindings(suites[i..], layer)
    {
      SuitesStep(intOf, suites, layer, i);
      var toolName := ToolName(suites[i]);
      var stats := ReadStats(intOf, suites[i]);
      tools := tools[toolName := stats];
      if stats.failures > 0 || stats.errors > 0 {
        ok := false;
      }
      var found := CollectCases(Iter(suites[i], "testcase"), toolName, layer);
      ghost var rest := SuitesFindings(suites[i + 1..], layer);
      assert findings + (found + rest) == (findings + found) + rest;
      findings := findings + found;
    }
    assert suites[|suites|..] == [] && suites[..|suites|] == suites;
  }

  function LayerOf(intOf: IntReader, layer: nat, name: string, file: File): LayerResult {
    LayerResult(layer, name, Green(intOf, file), if file.Xml? then SuitesTools(intOf, SuitesOf(file.root)) else map[],
                file.Missing?, PureStub(file))
  }

  method ParseLayer(intOf: IntReader, layer: nat, name: string, file: File)
    returns (result: LayerResult, findings: seq<Finding>)
    ensures result == LayerOf(intOf, layer, name, file)
    ensures findings == FileFindings(file, layer)
  {
    hide Iter, SuitesFindings, SuitesTools, IsStub, StatsOf;
    result := LayerResult(layer, name, true, map[], false, false);
    if file.Missing? {
      return result.(missing := true, ok := false), [Finding(Critical, "aggregator", LayerMissing, layer)];
    }
    if file.Garbled? {
      return result.(ok := false), [Finding(Critical, "aggregator", LayerGarbled, layer)];
    }
    var suites;
    if file.root.tag == "testsuites" {
      suites := Iter(file.root, "testsuite");
    } else if file.root.tag == "testsuite" {
      suites := [file.root];
    } else {
      NoSuites(intOf, layer);
      return result.(ok := false), [Finding(Critical, "aggregator", UnexpectedRoot(file.root.tag), layer)];
    }
    var pureStub := suites != [] && forall i | 0 <= i < |suites| :: IsStub(suites[i]);
    var ok, tools, found := ParseSuites(intOf, suites, layer);
    return result.(tools := tools, ok := ok, stub := pureStub), found;
  }

  // ---------- All layers ----------

  /** A sub-tool's sums with one more suite; a sum still at zero takes the suite's own elements. */
  function Added(intOf: IntReader, sum: ToolStats, s: Element): ToolStats {
    var tests, skipped := sum.tests + IntAttr(intOf, s, "tests"), sum.skipped + IntAttr(intOf, s, "skipped");
    var failures, errors := sum.failures + IntAttr(intOf, s, "failures"), sum.errors + IntAttr(intOf, s, "errors");
    ToolStats(
      tests,
      if failures == 0 then |Iter(s, "failure")| else failures,
      if errors == 0 then |Iter(s, "error")| else errors,
      if skipped == 0 then |Iter(s, "skipped")| else skipped)
  }

  function SubFold(intOf: IntReader, suites: seq<Element>): ToolStats {
    if suites == [] then ToolStats(0, 0, 0, 0)
    else Added(intOf, SubFold(intOf, suites[..|suites| - 1]), suites[|suites| - 1])
  }

  function SubStats(intOf: IntReader, file: File): ToolStats {
    match file
    case Missing => ToolStats(1, 0, 0, 1)
    case Garbled => ToolStats(1, 0, 1, 0)
    case Xml(root) => SubFold(intOf, SuitesOf(root))
  }

  /** The tools of a layer with its sub-tools added; a tool the layer's own file reports is not touched. */
  function WithSubTools(intOf: IntReader, files: map<string, File>, tools: map<string, ToolStats>, subs: seq<string>)
    : map<string, ToolStats>
  {
    if subs == [] then tools
    else
      var before := WithSubTools(intOf, files, tools, subs[..|subs| - 1]);
      var sub := subs[|subs| - 1];
      if sub in before then before else before[sub := SubStats(intOf, FileAt(files, SubFile(sub)))]
  }

  function SubToolsOf(layer: nat): seq<string> {
    if layer in SUB_TOOLS then SUB_TOOLS[layer] else []
  }

  method SumSuites(intOf: IntReader, suites: seq<Element>) returns (stats: ToolStats)
    ensures stats == SubFold(intOf, suites)
  {
    hide Added;
    stats := ToolStats(0, 0, 0, 0);
    for i := 0 to |suites|
      invariant stats == SubFold(intOf, suites[..i])
    {
      assert suites[..i + 1][..i] == suites[..i];
      stats := AddSuite(intOf, stats, suites[i]);
    }
    assert suites[..|suites|] == suites;
  }

  method ReadSubTool(intOf: IntReader, file: File) returns (stats: ToolStats)
    ensures stats == SubStats(intOf, file)
  {
    if file.Missing? {
      return ToolStats(1, 0, 0, 1);
    }
    if file.Garbled? {
      return ToolStats(1, 0, 1, 0);
    }
    stats := SumSuites(intOf, SuitesOf(file.root));
  }

  method AddSubTools(intOf: IntReader, files: map<string, File>, tools: map<string, ToolStats>, layer: nat)
    returns (all: map<string, ToolStats>)
    ensures all == WithSubTools(intOf, files, tools, SubToolsOf(layer))
  {
    hide SubToolsOf, SubStats, FileAt, SubFile;
    all := tools;
    var subs := SubToolsOf(layer);
    for i := 0 to |subs|
      invariant all == WithSubTools(intOf, files, tools, subs[..i])
    {
      assert subs[..i + 1][..i] == subs[..i];
      if subs[i] in all {
        continue;
      }
      var stats := ReadSubTool(intOf, FileAt(files, SubFile(subs[i])));
      all := all[subs[i] := stats];
    }
    assert subs[..|subs|] == subs;
  }

  method AddSuite(intOf: IntReader, sum: ToolStats, s: Element) returns (stats: ToolStats)
    ensures stats == Added(intOf, sum, s)
  {
    hide Iter;
    stats := ToolStats(sum.tests + IntAttr(intOf, s, "tests"), sum.failures + IntAttr(intOf, s, "failures"),
                       sum.errors + IntAttr(intOf, s, "errors"), sum.skipped + IntAttr(intOf, s, "skipped"));
    if stats.skipped == 0 {
      stats := stats.(skipped := |Iter(s, "skipped")|);
    }
    if stats.failures == 0 {
      stats := stats.(failures := |Iter(s, "failure")|);
    }
    if stats.errors == 0 {
      stats := stats.(errors := |Iter(s, "error")|);
    }
  }

  function LayerAt(intOf: IntReader, files: map<string, File>, layer: Layer): LayerResult
    requires layer.number < 10
  {
    if layer.number == REPORT_LAYER then
      LayerResult(layer.number, layer.name, true, map["aggregator" := ToolStats(1, 0, 0, 0)], false, false)
    else
      var own := LayerOf(intOf, layer.number, layer.name, FileAt(files, LayerFile(layer)));
      own.(tools := WithSubTools(intOf, files, own.tools, SubToolsOf(layer.number)))
  }

  predicate Numbered(layers: seq<Layer>) {
    forall i | 0 <= i < |layers| :: layers[i].number < 10
  }

  function LayersAt(intOf: IntReader, files: map<string, File>, layers: seq<Layer>): (r: seq<LayerResult>)
    requires Numbered(layers)
    ensures |r| == |layers| && forall i | 0 <= i < |layers| :: r[i] == LayerAt(intOf, files, layers[i])
  {
    seq(|layers|, i requires 0 <= i < |layers| => LayerAt(intOf, files, layers[i]))
  }

  function LayersFindings(files: map<string, File>, layers: seq<Layer>): seq<Finding>
    requires Numbered(layers)
  {
    if layers == [] then []
    else
      var last := layers[|layers| - 1];
      LayersFindings(files, layers[..|layers| - 1])
      + if last.number == REPORT_LAYER then [] else FileFindings(FileAt(files, LayerFile(last)), last.number)
  }

  predicate Blocks(lr: LayerResult) {
    lr.layer in REQUIRED_LAYERS && (!lr.ok || lr.missing)
  }

  method CollectLayers(intOf: IntReader, files: map<string, File>, layers: seq<Layer>)
    returns (results: seq<LayerResult>, findings: seq<Finding>)
    requires Numbered(layers)
    ensures results == LayersAt(intOf, files, layers)
    ensures findings == LayersFindings(files, layers)
  {
    hide FileFindings, LayerOf, WithSubTools, LayerFile, FileAt;
    results, findings := [], [];
    for i := 0 to |layers|
      invariant results == LayersAt(intOf, files, layers[..i])
      invariant findings == LayersFindings(files, layers[..i])
    {
      var layer := layers[i];
      assert layers[..i + 1][..i] == layers[..i];
      if layer.number == REPORT_LAYER {
        var own := LayerResult(layer.number, layer.name, true, map[], false, false);
        results := results + [own.(tools := own.tools["aggregator" := ToolStats(1, 0, 0, 0)])];
        continue;
      }
      var result, found := ParseLayer(intOf, layer.number, layer.name, FileAt(files, LayerFile(layer)));
      var tools := AddSubTools(intOf, files, result.tools, layer.number);
      results := results + [result.(tools := tools)];
      findings := findings + found;
    }
    assert layers[..|layers|] == layers;
  }

  method AllGreen(results: seq<LayerResult>) returns (ok: bool)
    ensures ok <==> forall i | 0 <= i < |results| :: !Blocks(results[i])
  {
    ok := true;
    for i := 0 to |results|
      invariant ok && forall j | 0 <= j < i :: !Blocks(results[j])
    {
      if results[i].layer in REQUIRED_LAYERS && (!results[i].ok || results[i].missing) {
        ok := false;
        assert Blocks(results[i]);
        break;
      }
    }
  }

  lemma {:induction false} AllNumbered()
    ensures Numbered(LAYERS)
  {
  }

  function ReportOf(intOf: IntReader, files: map<string, File>): Report {
    AllNumbered();
    var results, findings := LayersAt(intOf, files, LAYERS), LayersFindings(files, LAYERS);
    var ok := forall i | 0 <= i < |results| :: !Blocks(results[i]);
    Report(
      ok,
      results,
      findings,
      && ok
      && !(exists i | 0 <= i < |findings| :: findings[i].severity.Critical?)
      && !(exists i | 0 <= i < |results| :: results[i].layer in REQUIRED_LAYERS && results[i].stub))
  }

  method Aggregate(intOf: IntReader, files: map<string, File>) returns (report: Report, exitCode: int)
    ensures report == ReportOf(intOf, files)
    ensures exitCode == if report.ok then 0 else 1
  {
    hide LAYERS, LayersAt, LayersFindings;
    AllNumbered();
    var results, findings := CollectLayers(intOf, files, LAYERS);
    var ok := AllGreen(results);
    var hasCritical := exists i | 0 <= i < |findings| :: findings[i].severity.Critical?;
    var hasStub := exists i | 0 <= i < |results| :: results[i].layer in REQUIRED_LAYERS && results[i].stub;
    report := Report(ok, results, findings, ok && !hasCritical && !hasStub);
    exitCode := if ok then 0 else 1;
  }

  // ---------- The verdict agrees with the findings ----------

  ghost predicate NonNegative(intOf: IntReader, suite: Element) {
    IntAttr(intOf, suite, "failures") >= 0 && IntAttr(intOf, suite, "errors") >= 0
  }

  /** Some test case of the suite has a direct child with this tag. */
  ghost predicate HasDirect(suite: Element, tag: string) {
    exists c :: c in Iter(suite, "testcase") && FindAll(c.children, tag) != []
  }

  lemma {:induction false} IterAllAppend(a: seq<Element>, b: seq<Element>, tag: string)
    ensures IterAll(a + b, tag) == IterAll(a, tag) + IterAll(b, tag)
  {
    if a == [] {
      assert a + b == b;
    } else {
      assert (a + b)[1..] == a[1..] + b;
      IterAllAppend(a[1..], b, tag);
    }
  }

  /** A direct child is found by the walk from its parent. */
  lemma {:induction false} DirectIsFound(es: seq<Element>, tag: string)
    ensures FindAll(es, tag) != [] ==> IterAll(es, tag) != []
  {
    if es == [] {
    } else {
      DirectIsFound(es[1..], tag);
    }
  }

  lemma {:induction false} BelowAnyIsFound(es: seq<Element>, c: Element, tag: string, below: string)
    requires c in IterAll(es, tag) && IterAll(c.children, below) != []
    ensures IterAll(es, below) != []
    decreases es, 1
  {
    if c in Iter(es[0], tag) {
      BelowIsFound(es[0], c, tag, below);
    } else {
      BelowAnyIsFound(es[1..], c, tag, below);
    }
  }

  /** What hangs below an element that the walk visits is visited too. */
  lemma {:induction false} BelowIsFound(e: Element, c: Element, tag: string, below: string)
    requires c in Iter(e, tag) && IterAll(c.children, below) != []
    ensures Iter(e, below) != []
    decreases e, 0
  {
    if c != e {
      BelowAnyIsFound(e.children, c, tag, below);
    }
  }

  lemma {:induction false} TitledEmpty(
    es: seq<Element>, severity: Severity, tool: string, name: string, default: string, layer: nat)
    ensures |Titled(es, severity, tool, name, default, layer)| == |es|
  {
    if es == [] {
    } else {
      TitledEmpty(es[1..], severity, tool, name, default, layer);
    }
  }

  lemma {:induction false} CaseEmptyIff(c: Element, tool: string, layer: nat)
    ensures CaseFindings(c, tool, layer) == []
       <==> FindAll(c.children, "failure") == [] && FindAll(c.children, "error") == []
  {
    hide FindAll;
    TitledEmpty(FindAll(c.children, "failure"), High, tool, Attr(c, "name", "?"), "failure", layer);
    TitledEmpty(FindAll(c.children, "error"), Critical, tool, Attr(c, "name", "?"), "error", layer);
  }

  lemma {:induction false} CasesEmptyIff(cases: seq<Element>, tool: string, layer: nat)
    ensures CasesFindings(cases, tool, layer) == []
       <==> forall c | c in cases :: FindAll(c.children, "failure") == [] && FindAll(c.children, "error") == []
  {
    if cases == [] {
    } else {
      hide CaseFindings, FindAll;
      CasesEmptyIff(cases[1..], tool, layer);
      assert cases == [cases[0]] + cases[1..];
      CaseEmptyIff(cases[0], tool, layer);
      assert forall d :: d in cases <==> d == cases[0] || d in cases[1..];
    }
  }

  /** A direct failure counts: the suite fails, unless its counter is negative. */
  lemma {:induction false} DirectCounts(intOf: IntReader, suite: Element, key: string, tag: string)
    requires HasDirect(suite, tag)
    ensures Effective(intOf, suite, key, tag) > 0 <==> IntAttr(intOf, suite, key) >= 0
  {
    var c :| c in Iter(suite, "testcase") && FindAll(c.children, tag) != [];
    DirectIsFound(c.children, tag);
    BelowIsFound(suite, c, "testcase", tag);
  }

  /** A counter is negative and so hides the elements of its kind. */
  ghost predicate Hidden(intOf: IntReader, suite: Element, key: string, tag: string) {
    HasDirect(suite, tag) && IntAttr(intOf, suite, key) < 0
  }

  ghost predicate Hides(intOf: IntReader, suite: Element) {
    Hidden(intOf, suite, "failures", "failure") || Hidden(intOf, suite, "errors", "error")
  }

  /** A suite that passes has findings exactly if a negative counter hides them. */
  lemma {:induction false} PassesWithFindingsIff(intOf: IntReader, suite: Element, layer: nat)
    requires !Failing(intOf, suite)
    ensures SuiteFindings(suite, layer) != [] <==> Hides(intOf, suite)
  {
    hide Iter, Effective;
    CasesEmptyIff(Iter(suite, "testcase"), ToolName(suite), layer);
    if HasDirect(suite, "failure") {
      DirectCounts(intOf, suite, "failures", "failure");
    }
    if HasDirect(suite, "error") {
      DirectCounts(intOf, suite, "errors", "error");
    }
  }

  /** A suite that says -1 over a failure: it passes, and the failure is reported all the same. */
  const NEGATIVE_SUITE: Element := Element(
    "testsuite", map["failures" := "-1"], [Element("testcase", map[], [Element("failure", map[], [])])])

  lemma {:induction false} NegativeCounterPasses(intOf: IntReader, layer: nat)
    requires intOf("-1") == -1
    ensures !Failing(intOf, NEGATIVE_SUITE) && SuiteFindings(NEGATIVE_SUITE, layer) != []
  {
    var failure := Element("failure", map[], []);
    var case_ := Element("testcase", map[], [failure]);
    assert [failure][1..] == [] && [case_][1..] == [];
    assert Iter(failure, "error") == [] && Iter(failure, "testcase") == [];
    assert IterAll([failure], "error") == Iter(failure, "error") + IterAll([failure][1..], "error");
    assert IterAll([failure], "testcase") == Iter(failure, "testcase") + IterAll([failure][1..], "testcase");
    assert IterAll([case_], "error") == Iter(case_, "error") + IterAll([case_][1..], "error");
    assert IterAll([case_], "testcase") == Iter(case_, "testcase") + IterAll([case_][1..], "testcase");
    assert Iter(NEGATIVE_SUITE, "error") == [] && Iter(NEGATIVE_SUITE, "testcase") == [case_];
    assert FindAll(case_.children, "failure") == [failure];
    assert Hides(intOf, NEGATIVE_SUITE);
    PassesWithFindingsIff(intOf, NEGATIVE_SUITE, layer);
  }

  // ---------- Over the layers ----------

  lemma {:induction false} SuitesEmpty(suites: seq<Element>, layer: nat)
    requires forall s | s in suites :: SuiteFindings(s, layer) == []
    ensures SuitesFindings(suites, layer) == []
  {
    if suites == [] {
    } else {
      assert suites[0] in suites;
      SuitesEmpty(suites[1..], layer);
    }
  }

  ghost predicate FileNonNegative(intOf: IntReader, file: File) {
    file.Xml? ==> forall s | s in SuitesOf(file.root) :: NonNegative(intOf, s)
  }

  /** With non-negative counters a green layer has no findings. */
  lemma {:induction false} GreenHasNoFindings(intOf: IntReader, file: File, layer: nat)
    requires Green(intOf, file) && FileNonNegative(intOf, file)
    ensures FileFindings(file, layer) == []
  {
    hide Iter, Effective, SuiteFindings, Failing;
    var suites := SuitesOf(file.root);
    forall s | s in suites
      ensures SuiteFindings(s, layer) == []
    {
      assert NonNegative(intOf, s);
      var i :| 0 <= i < |suites| && suites[i] == s;
      assert !Failing(intOf, suites[i]);
      PassesWithFindingsIff(intOf, s, layer);
    }
    SuitesEmpty(suites, layer);
  }

  ghost predicate GateOpen(intOf: IntReader, files: map<string, File>) {
    AllNumbered();
    forall i | 0 <= i < |LAYERS| && LAYERS[i].number != REPORT_LAYER ::
      Green(intOf, FileAt(files, LayerFile(LAYERS[i])))
  }

  lemma {:induction false} RequiredLayers(n: nat)
    requires n < |LAYERS|
    ensures LAYERS[n].number == n && (n in REQUIRED_LAYERS <==> n != REPORT_LAYER)
  {
  }

  lemma {:induction false} MissingIsNotGreen(intOf: IntReader, file: File)
    ensures Green(intOf, file) ==> !file.Missing?
  {
  }

  /** The gate is open exactly when each layer's own file is green: no other file has a say. */
  lemma {:induction false} OkIffLayersGreen(intOf: IntReader, files: map<string, File>)
    ensures ReportOf(intOf, files).ok <==> GateOpen(intOf, files)
  {
    hide Green, LayerFile, LAYERS, WithSubTools, LayersFindings;
    AllNumbered();
    var results := LayersAt(intOf, files, LAYERS);
    forall i | 0 <= i < |LAYERS|
      ensures Blocks(results[i])
         <==> LAYERS[i].number != REPORT_LAYER && !Green(intOf, FileAt(files, LayerFile(LAYERS[i])))
    {
      RequiredLayers(i);
      MissingIsNotGreen(intOf, FileAt(files, LayerFile(LAYERS[i])));
    }
  }

  /** The suites of a file. */
  function FileSuites(file: File): seq<Element> {
    if file.Xml? then SuitesOf(file.root) else []
  }

  lemma {:induction false} SuitesEmptyIff(suites: seq<Element>, layer: nat)
    ensures SuitesFindings(suites, layer) == [] <==> forall s | s in suites :: SuiteFindings(s, layer) == []
  {
    if suites == [] {
    } else {
      hide SuiteFindings;
      SuitesEmptyIff(suites[1..], layer);
      assert suites == [suites[0]] + suites[1..];
    }
  }

  ghost predicate FileHidesNothing(intOf: IntReader, file: File) {
    forall s | s in FileSuites(file) :: !Hides(intOf, s)
  }

  lemma {:induction false} GreenFileCleanIff(intOf: IntReader, file: File, layer: nat)
    requires Green(intOf, file)
    ensures FileFindings(file, layer) == [] <==> FileHidesNothing(intOf, file)
  {
    hide Iter, Hides, SuiteFindings, Failing;
    var suites := SuitesOf(file.root);
    SuitesEmptyIff(suites, layer);
    forall s | s in suites
      ensures SuiteFindings(s, layer) == [] <==> !Hides(intOf, s)
    {
      var i :| 0 <= i < |suites| && suites[i] == s;
      assert !Failing(intOf, suites[i]);
      PassesWithFindingsIff(intOf, s, layer);
    }
  }

  /** In the layers' own files, that of the report itself aside, no counter hides anything. */
  ghost predicate NothingHidden(intOf: IntReader, files: map<string, File>, layers: seq<Layer>)
    requires Numbered(layers)
  {
    forall i | 0 <= i < |layers| && layers[i].number != REPORT_LAYER ::
      FileHidesNothing(intOf, FileAt(files, LayerFile(layers[i])))
  }

  lemma {:induction false} LayersCleanIff(intOf: IntReader, files: map<string, File>, layers: seq<Layer>)
    requires Numbered(layers)
    requires forall i | 0 <= i < |layers| && layers[i].number != REPORT_LAYER ::
               Green(intOf, FileAt(files, LayerFile(layers[i])))
    ensures LayersFindings(files, layers) == [] <==> NothingHidden(intOf, files, layers)
  {
    if layers == [] {
    } else {
      hide LayerFile, Green, FileFindings, FileAt, FileHidesNothing;
      var front, last := layers[..|layers| - 1], layers[|layers| - 1];
      LayersCleanIff(intOf, files, front);
      assert layers == front + [last];
      if last.number != REPORT_LAYER {
        assert layers[|layers| - 1] == last;
        GreenFileCleanIff(intOf, FileAt(files, LayerFile(last)), last.number);
      }
      assert NothingHidden(intOf, files, layers)
        <==> NothingHidden(intOf, files, front)
             && (last.number != REPORT_LAYER ==> FileHidesNothing(intOf, FileAt(files, LayerFile(last))));
    }
  }

  /** An open gate has no findings exactly if in no layer's own file a negative counter hides some. */
  lemma {:induction false} OpenGateCleanIff(intOf: IntReader, files: map<string, File>)
    requires ReportOf(intOf, files).ok
    ensures Numbered(LAYERS)
    ensures ReportOf(intOf, files).findings == [] <==> NothingHidden(intOf, files, LAYERS)
  {
    hide Green, LayerFile, LAYERS, LayersAt, NothingHidden;
    AllNumbered();
    OkIffLayersGreen(intOf, files);
    LayersCleanIff(intOf, files, LAYERS);
  }

  /** The layers' own files have non-negative counters. */
  ghost predicate LayersNonNegative(intOf: IntReader, files: map<string, File>) {
    AllNumbered();
    forall i | 0 <= i < |LAYERS| && LAYERS[i].number != REPORT_LAYER ::
      FileNonNegative(intOf, FileAt(files, LayerFile(LAYERS[i])))
  }

  lemma NonNegativeHidesNothing(intOf: IntReader, file: File)
    requires FileNonNegative(intOf, file)
    ensures FileHidesNothing(intOf, file)
  {
  }

  /**
   With non-negative counters in the layers' own files an open gate has no findings at all, and is
   ready unless a layer is a stub.
   */
  lemma {:induction false} OpenGateIsClean(intOf: IntReader, files: map<string, File>)
    requires LayersNonNegative(intOf, files)
    ensures
      var report := ReportOf(intOf, files);
      && (report.ok ==> report.findings == [])
      && (report.productionReady <==>
            report.ok && !exists i | 0 <= i < |report.layers| ::
              report.layers[i].layer in REQUIRED_LAYERS && report.layers[i].stub)
  {
    hide Green, LayerFile, LAYERS, LayersAt, FileSuites, FileNonNegative, Hides;
    AllNumbered();
    if ReportOf(intOf, files).ok {
      forall i | 0 <= i < |LAYERS| && LAYERS[i].number != REPORT_LAYER
        ensures FileHidesNothing(intOf, FileAt(files, LayerFile(LAYERS[i])))
      {
        NonNegativeHidesNothing(intOf, FileAt(files, LayerFile(LAYERS[i])));
      }
      OpenGateCleanIff(intOf, files);
    }
  }

  // ---------- What a sub-tool's sums show ----------

  /** Non-negative counters: the sum of a sub-tool file is positive exactly if some suite of it has a positive count. */
  lemma {:induction false} SubToolShowsFailureIff(intOf: IntReader, suites: seq<Element>)
    requires forall s | s in suites :: NonNegative(intOf, s)
    ensures SubFold(intOf, suites).failures >= 0 && SubFold(intOf, suites).errors >= 0
    ensures SubFold(intOf, suites).failures > 0 <==> exists s :: s in suites && StatsOf(intOf, s).failures > 0
    ensures SubFold(intOf, suites).errors > 0 <==> exists s :: s in suites && StatsOf(intOf, s).errors > 0
  {
    if suites == [] {
    } else {
      hide Iter, IntAttr;
      var front, last := suites[..|suites| - 1], suites[|suites| - 1];
      assert suites == front + [last] && last in suites;
      SubToolShowsFailureIff(intOf, front);
      assert NonNegative(intOf, last);
    }
  }

  /** Two gate directories that agree on the layers' own files. */
  ghost predicate SameLayerFiles(a: map<string, File>, b: map<string, File>) {
    AllNumbered();
    forall i | 0 <= i < |LAYERS| && LAYERS[i].number != REPORT_LAYER ::
      FileAt(a, LayerFile(LAYERS[i])) == FileAt(b, LayerFile(LAYERS[i]))
  }

  lemma {:induction false} SameFindings(a: map<string, File>, b: map<string, File>, layers: seq<Layer>)
    requires Numbered(layers)
    requires forall i | 0 <= i < |layers| && layers[i].number != REPORT_LAYER ::
               FileAt(a, LayerFile(layers[i])) == FileAt(b, LayerFile(layers[i]))
    ensures LayersFindings(a, layers) == LayersFindings(b, layers)
  {
    hide LayerFile, FileFindings;
    if layers == [] {
    } else {
      SameFindings(a, b, layers[..|layers| - 1]);
      assert layers[|layers| - 1].number != REPORT_LAYER ==>
          FileAt(a, LayerFile(layers[|layers| - 1])) == FileAt(b, LayerFile(layers[|layers| - 1]));
    }
  }

  /** Sub-tool files change neither the verdict, nor the findings, nor whether the gate is production ready. */
  lemma {:induction false} SubToolsHaveNoSay(intOf: IntReader, a: map<string, File>, b: map<string, File>)
    requires SameLayerFiles(a, b)
    ensures
      var ra, rb := ReportOf(intOf, a), ReportOf(intOf, b);
      ra.ok == rb.ok && ra.findings == rb.findings && ra.productionReady == rb.productionReady
  {
    hide LAYERS, LayerFile, WithSubTools, LayerOf, LayersFindings;
    AllNumbered();
    SameFindings(a, b, LAYERS);
    var xs, ys := LayersAt(intOf, a, LAYERS), LayersAt(intOf, b, LAYERS);
    assert forall i | 0 <= i < |LAYERS| ::
        xs[i].layer == ys[i].layer && xs[i].ok == ys[i].ok && xs[i].missing == ys[i].missing && xs[i].stub == ys[i].stub;
  }

  /** Adding sub-tools never touches what the layer's own file reported. */
  lemma {:induction false} OwnToolsKept(
    intOf: IntReader, files: map<string, File>, tools: map<string, ToolStats>, subs: seq<string>)
    ensures
      var all := WithSubTools(intOf, files, tools, subs);
      && (forall k | k in tools :: k in all && all[k] == tools[k])
      && (forall k :: k in all <==> k in tools || k in subs)
  {
    if subs == [] {
    } else {
      OwnToolsKept(intOf, files, tools, subs[..|subs| - 1]);
      assert subs == subs[..|subs| - 1] + [subs[|subs| - 1]];
    }
  }
}
