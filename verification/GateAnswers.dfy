/**
 What the gate answers, in terms of the files alone: when it is open, when it is ready, which findings
 it reports, and which numbers it shows.
 */
module GateAnswers {
  import opened GateReport

  // ---------- Elements of a tree ----------

  /** The element, or one below it. */
  ghost predicate Within(e: Element, d: Element)
    decreases e
  {
    d == e || exists i :: 0 <= i < |e.children| && Within(e.children[i], d)
  }

  /** How many elements have the tag. */
  function Tally(e: Element, tag: string): nat
    decreases e, 0
  {
    TallyAll(e.children, tag) + if e.tag == tag then 1 else 0
  }

  function TallyAll(es: seq<Element>, tag: string): nat
    decreases es, 1
  {
    if es == [] then 0 else Tally(es[0], tag) + TallyAll(es[1..], tag)
  }

  lemma {:induction false} WalkMeets(e: Element, tag: string, d: Element)
    ensures d in Iter(e, tag) <==> d.tag == tag && Within(e, d)
    decreases e, 0
  {
    WalkMeetsAny(e.children, tag, d);
  }

  lemma {:induction false} WalkMeetsAny(es: seq<Element>, tag: string, d: Element)
    ensures d in IterAll(es, tag) <==> d.tag == tag && exists i :: 0 <= i < |es| && Within(es[i], d)
    decreases es, 1
  {
    if es == [] {
    } else {
      WalkMeets(es[0], tag, d);
      WalkMeetsAny(es[1..], tag, d);
      if i :| 0 <= i < |es[1..]| && Within(es[1..][i], d) {
        assert Within(es[i + 1], d);
      }
      if i :| 0 <= i < |es| && Within(es[i], d) {
        assert i > 0 ==> Within(es[1..][i - 1], d);
      }
    }
  }

  lemma {:induction false} WalkCounts(e: Element, tag: string)
    ensures |Iter(e, tag)| == Tally(e, tag)
    decreases e, 0
  {
    WalkCountsAll(e.children, tag);
  }

  lemma {:induction false} WalkCountsAll(es: seq<Element>, tag: string)
    ensures |IterAll(es, tag)| == TallyAll(es, tag)
    decreases es, 1
  {
    if es == [] {
    } else {
      WalkCounts(es[0], tag);
      WalkCountsAll(es[1..], tag);
    }
  }

  ghost predicate HasElement(e: Element, tag: string) {
    exists d :: Within(e, d) && d.tag == tag
  }

  lemma {:induction false} WalkFinds(e: Element, tag: string)
    ensures Iter(e, tag) != [] <==> HasElement(e, tag)
  {
    hide Iter, Within;
    forall d
      ensures d in Iter(e, tag) <==> d.tag == tag && Within(e, d)
    {
      WalkMeets(e, tag, d);
    }
    if Iter(e, tag) != [] {
      assert Iter(e, tag)[0] in Iter(e, tag);
    }
  }

  ghost predicate HasChild(e: Element, tag: string) {
    exists i :: 0 <= i < |e.children| && e.children[i].tag == tag
  }

  lemma {:induction false} ChildrenFound(es: seq<Element>, tag: string, d: Element)
    ensures d in FindAll(es, tag) <==> d in es && d.tag == tag
  {
    if es == [] {
    } else {
      ChildrenFound(es[1..], tag, d);
      assert es == [es[0]] + es[1..];
    }
  }

  lemma {:induction false} ChildFound(e: Element, tag: string)
    ensures FindAll(e.children, tag) != [] <==> HasChild(e, tag)
  {
    var found := FindAll(e.children, tag);
    if found != [] {
      ChildrenFound(e.children, tag, found[0]);
    }
    if i :| 0 <= i < |e.children| && e.children[i].tag == tag {
      ChildrenFound(e.children, tag, e.children[i]);
    }
  }

  // ---------- The verdict ----------

  /** The counter is positive, or it is zero or absent and there is an element of its kind. */
  ghost predicate CountsSome(intOf: IntReader, suite: Element, key: string, tag: string) {
    if key in suite.attrs && intOf(suite.attrs[key]) != 0 then intOf(suite.attrs[key]) > 0 else HasElement(suite, tag)
  }

  lemma {:induction false} FailingIff(intOf: IntReader, suite: Element)
    ensures Failing(intOf, suite)
       <==> CountsSome(intOf, suite, "failures", "failure") || CountsSome(intOf, suite, "errors", "error")
  {
    hide Iter, HasElement;
    WalkFinds(suite, "failure");
    WalkFinds(suite, "error");
  }

  /** A suite the gate looks at: any below a root of suites, or the root itself. */
  ghost predicate SuiteIn(root: Element, s: Element) {
    if root.tag == "testsuites" then s.tag == "testsuite" && Within(root, s) else root.tag == "testsuite" && s == root
  }

  lemma {:induction false} SuitesAre(root: Element, s: Element)
    ensures s in SuitesOf(root) <==> SuiteIn(root, s)
  {
    hide Within, Iter;
    WalkMeets(root, "testsuite", s);
  }

  /** The file is there and can be read, has the right root, and no suite of it counts a failure or an error. */
  ghost predicate Passes(intOf: IntReader, files: map<string, File>, name: string) {
    && name in files && files[name].Xml?
    && files[name].root.tag in ["testsuites", "testsuite"]
    && forall s | SuiteIn(files[name].root, s) ::
         !CountsSome(intOf, s, "failures", "failure") && !CountsSome(intOf, s, "errors", "error")
  }

  lemma {:induction false} GreenIff(intOf: IntReader, files: map<string, File>, name: string)
    ensures Green(intOf, FileAt(files, name)) <==> Passes(intOf, files, name)
  {
    hide SuitesOf, SuiteIn, Failing, CountsSome;
    if name in files && files[name].Xml? {
      var root := files[name].root;
      forall s
        ensures s in SuitesOf(root) <==> SuiteIn(root, s)
        ensures Failing(intOf, s)
           <==> CountsSome(intOf, s, "failures", "failure") || CountsSome(intOf, s, "errors", "error")
      {
        SuitesAre(root, s);
        FailingIff(intOf, s);
      }
      assert forall i | 0 <= i < |SuitesOf(root)| :: SuitesOf(root)[i] in SuitesOf(root);
    }
  }

  /** The files that decide. */
  const GATE_FILES: seq<string> := [
    "L0-" + "static-fast" + ".xml", "L1-" + "license-bill" + ".xml", "L2-" + "unit-integration" + ".xml",
    "L3-" + "security-static" + ".xml", "L4-" + "container-supplychain" + ".xml", "L5-" + "dast-offline" + ".xml",
    "L6-" + "dast-online" + ".xml", "L7-" + "llm-security" + ".xml", "L8-" + "auth-session" + ".xml"]

  lemma DigitPrefix(layer: Layer, prefix: string)
    requires layer.number < 9 && |prefix| == 3 && prefix[0] == 'L' && prefix[2] == '-'
    requires prefix[1] as int == '0' as int + layer.number
    ensures LayerFile(layer) == prefix + layer.slug + ".xml"
  {
    var n := layer.number;
    assert n == 0 || n == 1 || n == 2 || n == 3 || n == 4 || n == 5 || n == 6 || n == 7 || n == 8;
    assert "L" + [DIGITS[n]] + "-" == prefix;
  }

  lemma {:induction false} FileNames(i: nat)
    requires i < 9
    ensures |LAYERS| == 10 && |GATE_FILES| == 9 && LAYERS[i].number == i
    ensures LayerFile(LAYERS[i]) == GATE_FILES[i]
  {
    hide LayerFile;
    match i
    case 0 => DigitPrefix(LAYERS[0], "L0-");
    case 1 => DigitPrefix(LAYERS[1], "L1-");
    case 2 => DigitPrefix(LAYERS[2], "L2-");
    case 3 => DigitPrefix(LAYERS[3], "L3-");
    case 4 => DigitPrefix(LAYERS[4], "L4-");
    case 5 => DigitPrefix(LAYERS[5], "L5-");
    case 6 => DigitPrefix(LAYERS[6], "L6-");
    case 7 => DigitPrefix(LAYERS[7], "L7-");
    case 8 => DigitPrefix(LAYERS[8], "L8-");
  }

  lemma Nine()
    ensures |LAYERS| == 10 && |GATE_FILES| == 9 && REPORT_LAYER == 9 && LAYERS[9].number == 9
  {
  }

  /** The gate is open exactly if each of the nine files passes. */
  lemma {:induction false} OpenIff(intOf: IntReader, files: map<string, File>)
    ensures ReportOf(intOf, files).ok <==> forall i | 0 <= i < |GATE_FILES| :: Passes(intOf, files, GATE_FILES[i])
  {
    hide Green, Passes, LayerFile, LAYERS, GATE_FILES, ReportOf, FileAt;
    AllNumbered();
    OkIffLayersGreen(intOf, files);
    Nine();
    forall i | 0 <= i < 9
      ensures LAYERS[i].number == i && LayerFile(LAYERS[i]) == GATE_FILES[i]
      ensures Green(intOf, FileAt(files, GATE_FILES[i])) <==> Passes(intOf, files, GATE_FILES[i])
    {
      FileNames(i);
      GreenIff(intOf, files, GATE_FILES[i]);
    }
    assert forall i | 0 <= i < |LAYERS| && LAYERS[i].number != REPORT_LAYER :: i < 9;
  }

  // ---------- The findings ----------

  function AttrOr(e: Element, key: string, default: string): string {
    if key in e.attrs then e.attrs[key] else default
  }

  /** A suite goes by its name, or as unknown if it has none. */
  function ShownName(suite: Element): string {
    if AttrOr(suite, "name", "") == "" then "unknown" else suite.attrs["name"]
  }

  /** What is reported of a direct child of a test case. */
  ghost predicate ReportedAs(suite: Element, case_: Element, child: Element, layer: nat, f: Finding) {
    && f.tool == ShownName(suite)
    && f.layer == layer
    && ((child.tag == "failure" && f.severity == High
         && f.title == CaseTitle(AttrOr(case_, "name", "?"), AttrOr(child, "message", "failure")))
        || (child.tag == "error" && f.severity == Critical
            && f.title == CaseTitle(AttrOr(case_, "name", "?"), AttrOr(child, "message", "error"))))
  }

  ghost predicate CaseReports(suite: Element, case_: Element, layer: nat, f: Finding) {
    exists i :: 0 <= i < |case_.children| && ReportedAs(suite, case_, case_.children[i], layer, f)
  }

  ghost predicate SuiteReports(suite: Element, layer: nat, f: Finding) {
    exists c :: Within(suite, c) && c.tag == "testcase" && CaseReports(suite, c, layer, f)
  }

  /** What is reported of a file: that it is missing, or unreadable, or of the wrong kind, or what its cases say. */
  ghost predicate FileReports(files: map<string, File>, name: string, layer: nat, f: Finding) {
    if name !in files || files[name].Missing? then f == Finding(Critical, "aggregator", LayerMissing, layer)
    else if files[name].Garbled? then f == Finding(Critical, "aggregator", LayerGarbled, layer)
    else if files[name].root.tag !in ["testsuites", "testsuite"] then
      f == Finding(Critical, "aggregator", UnexpectedRoot(files[name].root.tag), layer)
    else exists s :: SuiteIn(files[name].root, s) && SuiteReports(s, layer, f)
  }

  function Noted(severity: Severity, tool: string, name: string, default: string, layer: nat, d: Element): Finding {
    Finding(severity, tool, CaseTitle(name, AttrOr(d, "message", default)), layer)
  }

  lemma {:induction false} TitledIff(
    es: seq<Element>, severity: Severity, tool: string, name: string, default: string, layer: nat, f: Finding)
    ensures f in Titled(es, severity, tool, name, default, layer)
       <==> exists d :: d in es && f == Noted(severity, tool, name, default, layer, d)
  {
    if es == [] {
    } else {
      TitledIff(es[1..], severity, tool, name, default, layer, f);
      assert Titled(es, severity, tool, name, default, layer)
          == [Noted(severity, tool, name, default, layer, es[0])]
             + Titled(es[1..], severity, tool, name, default, layer);
      assert es[0] in es && forall d :: d in es <==> d == es[0] || d in es[1..];
    }
  }

  lemma {:induction false} CaseReportsIff(suite: Element, c: Element, layer: nat, f: Finding)
    ensures f in CaseFindings(c, ToolName(suite), layer) <==> CaseReports(suite, c, layer, f)
  {
    hide FindAll, Titled;
    var tool, name := ToolName(suite), Attr(c, "name", "?");
    TitledIff(FindAll(c.children, "failure"), High, tool, name, "failure", layer, f);
    TitledIff(FindAll(c.children, "error"), Critical, tool, name, "error", layer, f);
    forall d
      ensures d in FindAll(c.children, "failure") <==> d in c.children && d.tag == "failure"
      ensures d in FindAll(c.children, "error") <==> d in c.children && d.tag == "error"
    {
      ChildrenFound(c.children, "failure", d);
      ChildrenFound(c.children, "error", d);
    }
  }

  lemma {:induction false} CasesReportIff(cases: seq<Element>, tool: string, layer: nat, f: Finding)
    ensures f in CasesFindings(cases, tool, layer) <==> exists c :: c in cases && f in CaseFindings(c, tool, layer)
  {
    if cases == [] {
    } else {
      hide CaseFindings;
      CasesReportIff(cases[1..], tool, layer, f);
      assert cases == [cases[0]] + cases[1..];
    }
  }

  lemma {:induction false} SuiteReportsIff(suite: Element, layer: nat, f: Finding)
    ensures f in SuiteFindings(suite, layer) <==> SuiteReports(suite, layer, f)
  {
    hide CaseFindings, CaseReports, Within, Iter, ToolName;
    CasesReportIff(Iter(suite, "testcase"), ToolName(suite), layer, f);
    forall c
      ensures c in Iter(suite, "testcase") <==> Within(suite, c) && c.tag == "testcase"
      ensures f in CaseFindings(c, ToolName(suite), layer) <==> CaseReports(suite, c, layer, f)
    {
      WalkMeets(suite, "testcase", c);
      CaseReportsIff(suite, c, layer, f);
    }
  }

  lemma {:induction false} SuitesReportIff(suites: seq<Element>, layer: nat, f: Finding)
    ensures f in SuitesFindings(suites, layer) <==> exists s :: s in suites && f in SuiteFindings(s, layer)
  {
    if suites == [] {
    } else {
      hide SuiteFindings;
      SuitesReportIff(suites[1..], layer, f);
      assert suites == [suites[0]] + suites[1..];
    }
  }

  lemma {:induction false} FileReportsIff(files: map<string, File>, name: string, layer: nat, f: Finding)
    ensures f in FileFindings(FileAt(files, name), layer) <==> FileReports(files, name, layer, f)
  {
    hide SuiteFindings, SuiteReports, SuitesOf, SuiteIn, SuitesFindings;
    if name in files && files[name].Xml? {
      var root := files[name].root;
      SuitesReportIff(SuitesOf(root), layer, f);
      forall s
        ensures s in SuitesOf(root) <==> SuiteIn(root, s)
        ensures f in SuiteFindings(s, layer) <==> SuiteReports(s, layer, f)
      {
        SuitesAre(root, s);
        SuiteReportsIff(s, layer, f);
      }
    }
  }

  lemma {:induction false} LayersReportIff(files: map<string, File>, layers: seq<Layer>, f: Finding)
    requires Numbered(layers)
    ensures f in LayersFindings(files, layers)
       <==> exists i :: 0 <= i < |layers| && layers[i].number != REPORT_LAYER
                     && f in FileFindings(FileAt(files, LayerFile(layers[i])), layers[i].number)
  {
    if layers == [] {
    } else {
      hide FileFindings, FileAt, LayerFile;
      var front, last := layers[..|layers| - 1], layers[|layers| - 1];
      LayersReportIff(files, front, f);
      assert layers == front + [last];
      if i :| 0 <= i < |front| && front[i].number != REPORT_LAYER
              && f in FileFindings(FileAt(files, LayerFile(front[i])), front[i].number) {
        assert layers[i] == front[i];
      }
      assert layers[|front|] == last;
    }
  }

  /** The findings of the report are exactly those of the nine files. */
  lemma {:induction false} ReportedIff(intOf: IntReader, files: map<string, File>, f: Finding)
    ensures f in ReportOf(intOf, files).findings
       <==> exists i: nat :: i < |GATE_FILES| && FileReports(files, GATE_FILES[i], i, f)
  {
    hide LAYERS, GATE_FILES, FileFindings, FileReports, LayerFile, LayersAt, LayersFindings, FileAt;
    AllNumbered();
    Nine();
    LayersReportIff(files, LAYERS, f);
    forall i: nat | i < 9
      ensures LAYERS[i].number == i
      ensures f in FileFindings(FileAt(files, LayerFile(LAYERS[i])), i) <==> FileReports(files, GATE_FILES[i], i, f)
    {
      FileNames(i);
      FileReportsIff(files, GATE_FILES[i], i, f);
    }
    assert forall i | 0 <= i < |LAYERS| && LAYERS[i].number != REPORT_LAYER :: i < 9;
  }

  // ---------- Readiness ----------

  /** One test case, skipped, under the name that stands for a layer not built yet. */
  ghost predicate StubSuite(suite: Element) {
    && Tally(suite, "testcase") == 1
    && exists c :: Within(suite, c) && c.tag == "testcase" && HasChild(c, "skipped")
                && "name" in c.attrs && c.attrs["name"] == "not-yet-implemented"
  }

  lemma {:induction false} StubSuiteIff(suite: Element)
    ensures IsStub(suite) <==> StubSuite(suite)
  {
    hide Within, HasChild, Tally, FindAll, Iter;
    var cases := Iter(suite, "testcase");
    WalkCounts(suite, "testcase");
    forall c
      ensures c in cases <==> c.tag == "testcase" && Within(suite, c)
      ensures FindAll(c.children, "skipped") != [] <==> HasChild(c, "skipped")
    {
      WalkMeets(suite, "testcase", c);
      ChildFound(c, "skipped");
    }
    assert cases != [] ==> cases[0] in cases;
    assert |cases| == 1 ==> forall c | c in cases :: c == cases[0];
  }

  /** Suites of this kind, at least one, and no other. */
  ghost predicate StubFile(files: map<string, File>, name: string) {
    && name in files && files[name].Xml?
    && (exists s :: SuiteIn(files[name].root, s))
    && forall s | SuiteIn(files[name].root, s) :: StubSuite(s)
  }

  lemma {:induction false} StubFileIff(files: map<string, File>, name: string)
    ensures PureStub(FileAt(files, name)) <==> StubFile(files, name)
  {
    hide SuitesOf, SuiteIn, IsStub, StubSuite;
    if name in files && files[name].Xml? {
      var suites := SuitesOf(files[name].root);
      forall s
        ensures s in suites <==> SuiteIn(files[name].root, s)
        ensures IsStub(s) <==> StubSuite(s)
      {
        SuitesAre(files[name].root, s);
        StubSuiteIff(s);
      }
      assert suites != [] ==> suites[0] in suites;
      assert forall i | 0 <= i < |suites| :: suites[i] in suites;
    }
  }

  /** Some test case has an error as a direct child. */
  ghost predicate ErrorInFile(files: map<string, File>, name: string) {
    && name in files && files[name].Xml?
    && exists s, c :: SuiteIn(files[name].root, s) && Within(s, c) && c.tag == "testcase" && HasChild(c, "error")
  }

  ghost predicate ReportsCritical(files: map<string, File>, name: string, layer: nat) {
    exists f: Finding :: FileReports(files, name, layer, f) && f.severity == Critical
  }

  lemma {:induction false} CriticalIff(files: map<string, File>, name: string, layer: nat)
    requires name in files && files[name].Xml? && files[name].root.tag in ["testsuites", "testsuite"]
    ensures ReportsCritical(files, name, layer) <==> ErrorInFile(files, name)
  {
    hide Within, SuiteIn;
    if s, c :| SuiteIn(files[name].root, s) && Within(s, c) && c.tag == "testcase" && HasChild(c, "error") {
      var i :| 0 <= i < |c.children| && c.children[i].tag == "error";
      var f := Finding(
        Critical, ShownName(s), CaseTitle(AttrOr(c, "name", "?"), AttrOr(c.children[i], "message", "error")), layer);
      assert ReportedAs(s, c, c.children[i], layer, f);
      assert CaseReports(s, c, layer, f);
      assert SuiteReports(s, layer, f);
      assert FileReports(files, name, layer, f);
    }
  }

  ghost predicate HasCritical(findings: seq<Finding>) {
    exists i | 0 <= i < |findings| :: findings[i].severity.Critical?
  }

  ghost predicate HasStub(results: seq<LayerResult>) {
    exists i | 0 <= i < |results| :: results[i].layer in REQUIRED_LAYERS && results[i].stub
  }

  lemma ReadyIs(intOf: IntReader, files: map<string, File>)
    ensures var report := ReportOf(intOf, files);
      report.productionReady <==> report.ok && !HasCritical(report.findings) && !HasStub(report.layers)
  {
    hide LAYERS, LayersAt, LayersFindings;
  }

  /** With all files there and readable, a finding is critical exactly if some test case has an error. */
  lemma {:induction false} CriticalFound(intOf: IntReader, files: map<string, File>)
    requires forall i | 0 <= i < |GATE_FILES| :: Passes(intOf, files, GATE_FILES[i])
    ensures HasCritical(ReportOf(intOf, files).findings)
       <==> exists i :: 0 <= i < |GATE_FILES| && ErrorInFile(files, GATE_FILES[i])
  {
    hide GATE_FILES, FileReports, ErrorInFile, ReportOf, CountsSome, SuiteIn;
    var findings := ReportOf(intOf, files).findings;
    forall i: nat | i < |GATE_FILES|
      ensures ReportsCritical(files, GATE_FILES[i], i) <==> ErrorInFile(files, GATE_FILES[i])
    {
      assert Passes(intOf, files, GATE_FILES[i]);
      CriticalIff(files, GATE_FILES[i], i);
    }
    if k :| 0 <= k < |findings| && findings[k].severity.Critical? {
      ReportedIff(intOf, files, findings[k]);
      var i: nat :| i < |GATE_FILES| && FileReports(files, GATE_FILES[i], i, findings[k]);
      assert ReportsCritical(files, GATE_FILES[i], i);
    }
    if i :| 0 <= i < |GATE_FILES| && ErrorInFile(files, GATE_FILES[i]) {
      assert ReportsCritical(files, GATE_FILES[i], i);
      var f: Finding :| FileReports(files, GATE_FILES[i], i, f) && f.severity == Critical;
      ReportedIff(intOf, files, f);
      var k :| 0 <= k < |findings| && findings[k] == f;
    }
  }

  lemma LayerShows(intOf: IntReader, files: map<string, File>, layer: Layer)
    requires layer.number < 10 && layer.number != REPORT_LAYER
    ensures LayerAt(intOf, files, layer).layer == layer.number
    ensures LayerAt(intOf, files, layer).stub <==> PureStub(FileAt(files, LayerFile(layer)))
    ensures LayerAt(intOf, files, layer).ok <==> Green(intOf, FileAt(files, LayerFile(layer)))
    ensures LayerAt(intOf, files, layer).missing <==> FileAt(files, LayerFile(layer)).Missing?
  {
    hide Green, PureStub, FileAt, LayerFile, WithSubTools;
  }

  lemma ReportLayers(intOf: IntReader, files: map<string, File>, i: nat)
    requires i < |LAYERS|
    ensures LAYERS[i].number < 10 && |ReportOf(intOf, files).layers| == |LAYERS|
    ensures ReportOf(intOf, files).layers[i] == LayerAt(intOf, files, LAYERS[i])
  {
    hide LAYERS, LayerAt, LayersFindings;
    AllNumbered();
  }

  lemma LastLayer(intOf: IntReader, files: map<string, File>)
    ensures |LAYERS| == 10 && LAYERS[9].number < 10
    ensures LayerAt(intOf, files, LAYERS[9]).layer == 9 && 9 !in REQUIRED_LAYERS
  {
    hide LayerOf, WithSubTools;
  }

  lemma {:induction false} StubFound(intOf: IntReader, files: map<string, File>)
    ensures HasStub(ReportOf(intOf, files).layers)
           <==> exists i :: 0 <= i < |GATE_FILES| && StubFile(files, GATE_FILES[i])
  {
    hide LAYERS, GATE_FILES, ReportOf, LayerAt, LayerFile, StubFile, PureStub, FileAt;
    Nine();
    var layers := ReportOf(intOf, files).layers;
    forall i: nat | i < 9
      ensures |layers| == 10 && layers[i].layer == i && i in REQUIRED_LAYERS
      ensures layers[i].stub <==> StubFile(files, GATE_FILES[i])
    {
      FileNames(i);
      ReportLayers(intOf, files, i);
      LayerShows(intOf, files, LAYERS[i]);
      StubFileIff(files, GATE_FILES[i]);
    }
    ReportLayers(intOf, files, 9);
    LastLayer(intOf, files);
  }

  /**
   Ready for production means that each of the nine files passes, none is a stub, and no test case in
   them has an error.
   */
  lemma {:induction false} ReadyIff(intOf: IntReader, files: map<string, File>)
    ensures ReportOf(intOf, files).productionReady
       <==> forall i | 0 <= i < |GATE_FILES| ::
              && Passes(intOf, files, GATE_FILES[i])
              && !StubFile(files, GATE_FILES[i]) && !ErrorInFile(files, GATE_FILES[i])
  {
    hide GATE_FILES, ReportOf, Passes, StubFile, ErrorInFile, HasCritical, HasStub;
    ReadyIs(intOf, files);
    OpenIff(intOf, files);
    StubFound(intOf, files);
    if ReportOf(intOf, files).ok {
      CriticalFound(intOf, files);
    }
  }

  // ---------- The numbers ----------

  /** A counter as it is written, or the number of elements of its kind where it is zero or absent. */
  function CounterOr(intOf: IntReader, suite: Element, key: string, tag: string): int {
    if key in suite.attrs && intOf(suite.attrs[key]) != 0 then intOf(suite.attrs[key]) else Tally(suite, tag)
  }

  function Written(intOf: IntReader, suite: Element, key: string): int {
    if key in suite.attrs then intOf(suite.attrs[key]) else 0
  }

  lemma {:induction false} StatsAre(intOf: IntReader, suite: Element)
    ensures StatsOf(intOf, suite) == ToolStats(
      Written(intOf, suite, "tests"), CounterOr(intOf, suite, "failures", "failure"),
      CounterOr(intOf, suite, "errors", "error"), CounterOr(intOf, suite, "skipped", "skipped"))
  {
    hide Iter, Tally;
    WalkCounts(suite, "failure");
    WalkCounts(suite, "error");
    WalkCounts(suite, "skipped");
  }

  /** The tools of a file are the names of its suites, and a name shows the numbers of the last suite that has it. */
  lemma {:induction false} ToolsAre(intOf: IntReader, suites: seq<Element>, tool: string)
    ensures tool in SuitesTools(intOf, suites) <==> exists s :: s in suites && ShownName(s) == tool
    ensures forall i | 0 <= i < |suites| && ShownName(suites[i]) == tool
                       && (forall j | i < j < |suites| :: ShownName(suites[j]) != tool) ::
              tool in SuitesTools(intOf, suites) && SuitesTools(intOf, suites)[tool] == ToolStats(
                Written(intOf, suites[i], "tests"), CounterOr(intOf, suites[i], "failures", "failure"),
                CounterOr(intOf, suites[i], "errors", "error"), CounterOr(intOf, suites[i], "skipped", "skipped"))
  {
    if suites == [] {
    } else {
      var n := |suites| - 1;
      var front, last := suites[..n], suites[n];
      assert suites == front + [last];
      ToolsAre(intOf, front, tool);
      hide StatsOf, CounterOr, Written;
      StatsAre(intOf, last);
      assert ToolName(last) == ShownName(last);
      assert SuitesTools(intOf, suites) == SuitesTools(intOf, front)[ToolName(last) := StatsOf(intOf, last)];
    }
  }

  /** A property of each suite, summed. */
  function Sum(of: Element -> int, suites: seq<Element>): int {
    if suites == [] then 0 else Sum(of, suites[..|suites| - 1]) + of(suites[|suites| - 1])
  }

  /** The counters of the suite count its elements. */
  ghost predicate Honest(intOf: IntReader, s: Element) {
    && Written(intOf, s, "failures") == Tally(s, "failure")
    && Written(intOf, s, "errors") == Tally(s, "error")
    && Written(intOf, s, "skipped") == Tally(s, "skipped")
  }

  /** A sub-tool whose suites count their elements shows the totals over all of them. */
  lemma {:induction false} SubToolTotals(intOf: IntReader, suites: seq<Element>)
    requires forall s | s in suites :: Honest(intOf, s)
    ensures SubFold(intOf, suites) == ToolStats(
      Sum(s => Written(intOf, s, "tests"), suites), Sum(s => Tally(s, "failure"), suites),
      Sum(s => Tally(s, "error"), suites), Sum(s => Tally(s, "skipped"), suites))
    ensures Sum(s => Tally(s, "failure"), suites) >= 0
    ensures Sum(s => Tally(s, "error"), suites) >= 0 && Sum(s => Tally(s, "skipped"), suites) >= 0
  {
    if suites == [] {
    } else {
      hide Iter, Tally;
      var front, last := suites[..|suites| - 1], suites[|suites| - 1];
      assert suites == front + [last] && last in suites;
      SubToolTotals(intOf, front);
      WalkCounts(last, "failure");
      WalkCounts(last, "error");
      WalkCounts(last, "skipped");
      assert Honest(intOf, last);
    }
  }

  /** What is shown of a sub-tool that the layer's own file does not name. */
  lemma {:induction false} SubToolShown(
    intOf: IntReader, files: map<string, File>, tools: map<string, ToolStats>, subs: seq<string>, tool: string)
    requires tool in subs && tool !in tools
    ensures
      var all, name := WithSubTools(intOf, files, tools, subs), tool + ".xml";
      && tool in all
      && all[tool] == if name !in files || files[name].Missing? then ToolStats(1, 0, 0, 1)
                      else if files[name].Garbled? then ToolStats(1, 0, 1, 0)
                      else SubFold(intOf, SuitesOf(files[name].root))
  {
    var front, last := subs[..|subs| - 1], subs[|subs| - 1];
    assert subs == front + [last];
    OwnToolsKept(intOf, files, tools, front);
    if tool in front {
      SubToolShown(intOf, files, tools, front, tool);
    }
  }

  // ---------- The layers of the report ----------

  /** The sub-tools that are shown with a layer. */
  function SubNames(layer: nat): seq<string> {
    match layer
    case 0 => ["L0-pyright", "L0-ruff", "L0-hadolint"]
    case 4 => ["L4-trivy", "L4-syft", "L4-dockle"]
    case 5 => ["L5-schemathesis", "L5-idor-grid"]
    case 6 => ["L6-zap", "L6-nuclei", "L6-dos-redos", "L6-dos-decompression", "L6-dos-jsonbomb", "L6-dos-slowloris"]
    case 7 => ["L7-garak-sse", "L7-garak-json", "L7-llm-top10"]
    case 8 => ["L8-auth-session", "L8-auth-runtime-pytest"]
    case _ => []
  }

  lemma SubNamesAre(layer: nat)
    ensures SubToolsOf(layer) == SubNames(layer)
  {
  }

  /** A suite of the file goes by this name. */
  ghost predicate NamedInFile(files: map<string, File>, name: string, tool: string) {
    name in files && files[name].Xml? && exists s :: SuiteIn(files[name].root, s) && ShownName(s) == tool
  }

  /** The tools of a layer: those its own file names, and its sub-tools. */
  lemma {:induction false} LayerTools(intOf: IntReader, files: map<string, File>, layer: Layer, tool: string)
    requires layer.number < 10 && layer.number != REPORT_LAYER
    ensures tool in LayerAt(intOf, files, layer).tools
       <==> NamedInFile(files, LayerFile(layer), tool) || tool in SubNames(layer.number)
  {
    hide Within, SuitesTools, LayerFile, SubToolsOf, SubNames, Green, PureStub;
    var name := LayerFile(layer);
    var own := LayerOf(intOf, layer.number, layer.name, FileAt(files, name));
    SubNamesAre(layer.number);
    OwnToolsKept(intOf, files, own.tools, SubToolsOf(layer.number));
    if name in files && files[name].Xml? {
      var root := files[name].root;
      ToolsAre(intOf, SuitesOf(root), tool);
      hide SuitesOf, SuiteIn;
      forall s
        ensures s in SuitesOf(root) <==> SuiteIn(root, s)
      {
        SuitesAre(root, s);
      }
    }
  }

  /** What the report shows of a layer whose file decides: it passes, it is missing, and its tools. */
  lemma {:induction false} LayerIs(intOf: IntReader, files: map<string, File>, i: nat, tool: string)
    requires i < |GATE_FILES|
    ensures
      var layers, name := ReportOf(intOf, files).layers, GATE_FILES[i];
      && |layers| == 10 && layers[i].layer == i
      && (layers[i].ok <==> Passes(intOf, files, name))
      && (layers[i].missing <==> name !in files || files[name].Missing?)
      && (layers[i].stub <==> StubFile(files, name))
      && (tool in layers[i].tools <==> NamedInFile(files, name, tool) || tool in SubNames(i))
  {
    hide LAYERS, GATE_FILES, ReportOf, LayerAt, LayerFile, StubFile, PureStub, Passes, NamedInFile, SubNames;
    Nine();
    FileNames(i);
    ReportLayers(intOf, files, i);
    LayerShows(intOf, files, LAYERS[i]);
    StubFileIff(files, GATE_FILES[i]);
    GreenIff(intOf, files, GATE_FILES[i]);
    LayerTools(intOf, files, LAYERS[i], tool);
  }

  /** Of its own layer the aggregator reports that it is there. */
  lemma {:induction false} OwnLayerIs(intOf: IntReader, files: map<string, File>)
    ensures |ReportOf(intOf, files).layers| == 10
    ensures ReportOf(intOf, files).layers[9]
         == LayerResult(9, LAYERS[9].name, true, map["aggregator" := ToolStats(1, 0, 0, 0)], false, false)
  {
    hide ReportOf, LayerOf, WithSubTools;
    Nine();
    ReportLayers(intOf, files, 9);
  }
}
