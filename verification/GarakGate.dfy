/**
 The garak report on its way through the gate: written as a JUnit file, shown by the aggregator as a
 sub-tool, and combined with the other sub-tools into the file that speaks for its layer.
 */
module GarakGate {
  import opened GarakBuckets
  import opened GateAnswers
  import opened GateReport
  import opened LayerCombiner

  type Show = nat -> string

  function Message(show: Show, c: Case): string {
    if c == NO_RECORDS then "garak report had 0 records"
    else
      var text := c.name + ": " + show(c.hits) + "/" + show(c.attempts) + " attempts succeeded";
      if c.verdict == Verdict.Failure then text else text + " (sev=" + c.severity + ")"
  }

  function CaseElement(show: Show, c: Case): Element {
    var named := map["name" := c.name, "classname" := c.className];
    var attrs := if c == NO_RECORDS then named else named["attempts" := show(c.attempts)]["hits" := show(c.hits)];
    var child :=
      match c.verdict
      case Clean => []
      case Failure => [Element("failure", map["message" := Message(show, c), "type" := "garak." + c.name], [])]
      case Skipped => [Element("skipped", map["message" := Message(show, c)], [])];
    Element("testcase", attrs, child)
  }

  function CaseElements(show: Show, cases: seq<Case>): seq<Element> {
    if cases == [] then []
    else CaseElements(show, cases[..|cases| - 1]) + [CaseElement(show, cases[|cases| - 1])]
  }

  function Counters(show: Show, suite: Suite): map<string, string> {
    map["name" := suite.name, "tests" := show(suite.tests), "failures" := show(suite.failures),
        "errors" := show(suite.errors), "skipped" := show(suite.skipped)]
  }

  function SuiteElement(show: Show, suite: Suite): Element {
    Element("testsuite", Counters(show, suite), CaseElements(show, suite.cases))
  }

  /** The root of the written file repeats the counters of its one suite. */
  function Wrapped(show: Show, suite: Suite): Element {
    Element("testsuites", Counters(show, suite), [SuiteElement(show, suite)])
  }

  /** The gate's integer reader undoes the writer's rendering. */
  ghost predicate ReadsBack(intOf: IntReader, show: Show) {
    forall n: nat :: intOf(show(n)) == n
  }

  /** The sub-tool files of the layer. */
  const LLM_SUBS: seq<string> := ["L7-llm-top10.xml", "L7-garak-sse.xml", "L7-garak-json.xml"]

  const LLM_LAYER := 7

  const LLM_NAME := "l7-llm-security"

  /** A record that hits some probe, and is high or critical, or does not say how severe it is. */
  ghost predicate Grave(text: Text, r: Record) {
    && (exists probe :: HitsProbe(text, probe, r))
    && (r.severity == "" || text.upper(text.strip(r.severity)) in {"HIGH", "CRITICAL"})
  }

  lemma {:induction false} WalkOfCase(show: Show, c: Case, tag: string)
    ensures Iter(CaseElement(show, c), tag)
         == if tag == "testcase" then [CaseElement(show, c)]
            else if c.verdict != Clean && tag == CaseElement(show, c).children[0].tag then CaseElement(show, c).children
            else []
  {
    var e := CaseElement(show, c);
    if c.verdict == Clean {
      assert e.children == [];
    } else {
      var child := e.children[0];
      assert e.children == [child] && e.children[1..] == [] && child.children == [];
      assert IterAll(e.children, tag) == Iter(child, tag) + IterAll(e.children[1..], tag);
      assert Iter(child, tag) == if child.tag == tag then [child] else [];
    }
  }

  lemma {:induction false} WalkAfter(show: Show, front: seq<Case>, c: Case, tag: string)
    ensures IterAll(CaseElements(show, front + [c]), tag)
         == IterAll(CaseElements(show, front), tag)
            + if tag == "testcase" then [CaseElement(show, c)]
              else if c.verdict == Verdict.Failure && tag == "failure" then CaseElement(show, c).children
              else if c.verdict == Verdict.Skipped && tag == "skipped" then CaseElement(show, c).children
              else []
  {
    var e := CaseElement(show, c);
    assert (front + [c])[..|front|] == front;
    IterAllAppend(CaseElements(show, front), [e], tag);
    assert IterAll([e], tag) == Iter(e, tag) + IterAll([e][1..], tag);
    WalkOfCase(show, c, tag);
  }

  /** What a walk over the written cases meets. */
  lemma {:induction false} WalkOfCases(show: Show, cases: seq<Case>)
    ensures IterAll(CaseElements(show, cases), "testcase") == CaseElements(show, cases)
    ensures IterAll(CaseElements(show, cases), "testsuite") == []
    ensures IterAll(CaseElements(show, cases), "error") == []
    ensures |IterAll(CaseElements(show, cases), "failure")| == WithVerdict(cases, Verdict.Failure)
    ensures |IterAll(CaseElements(show, cases), "skipped")| == WithVerdict(cases, Verdict.Skipped)
  {
    if cases == [] {
    } else {
      var front, c := cases[..|cases| - 1], cases[|cases| - 1];
      WalkOfCases(show, front);
      WalkAfter(show, front, c, "testcase");
      WalkAfter(show, front, c, "testsuite");
      WalkAfter(show, front, c, "error");
      WalkAfter(show, front, c, "failure");
      WalkAfter(show, front, c, "skipped");
      assert cases == front + [c];
      WithVerdictLast(front, c, Verdict.Failure);
      WithVerdictLast(front, c, Verdict.Skipped);
    }
  }

  /** The file has one suite, whose counters are the converter's. */
  lemma {:induction false} FileHasOneSuite(intOf: IntReader, show: Show, suite: Suite)
    requires ReadsBack(intOf, show) && Tallied(suite)
    ensures Iter(Wrapped(show, suite), "testsuite") == [SuiteElement(show, suite)]
    ensures StatsOf(intOf, SuiteElement(show, suite)) == ToolStats(suite.tests, suite.failures, 0, suite.skipped)
  {
    hide CaseElements, WithVerdict, StringLe;
    WalkOfCases(show, suite.cases);
    var e := SuiteElement(show, suite);
    assert IterAll([e], "testsuite") == Iter(e, "testsuite") + IterAll([e][1..], "testsuite");
    assert Iter(e, "testsuite") == [e] + IterAll(e.children, "testsuite");
  }

  /** The first suite of a sub-tool file is summed as it stands. */
  lemma {:induction false} FirstIsStats(intOf: IntReader, s: Element)
    ensures SubFold(intOf, [s]) == StatsOf(intOf, s)
  {
    hide Iter, IntAttr;
    assert [s][..0] == [];
    assert SubFold(intOf, [s]) == Added(intOf, SubFold(intOf, []), s);
  }

  /** As a sub-tool file it shows the converter's counters. */
  lemma {:induction false} GateReadsCounters(intOf: IntReader, show: Show, suite: Suite)
    requires ReadsBack(intOf, show) && Tallied(suite)
    ensures SubStats(intOf, Xml(Wrapped(show, suite))) == ToolStats(suite.tests, suite.failures, 0, suite.skipped)
  {
    hide Iter, SuiteElement, Tallied;
    FileHasOneSuite(intOf, show, suite);
    FirstIsStats(intOf, SuiteElement(show, suite));
  }

  lemma {:induction false} WithVerdictIff(cases: seq<Case>, verdict: Verdict)
    ensures WithVerdict(cases, verdict) > 0 <==> exists i :: 0 <= i < |cases| && cases[i].verdict == verdict
  {
    if cases == [] {
    } else {
      WithVerdictIff(cases[..|cases| - 1], verdict);
    }
  }

  /** The suite counts a failure exactly when some record is grave. */
  lemma {:induction false} FailuresIffGrave(text: Text, records: seq<Record>, suite: Suite)
    requires text.Lawful() && SuiteFor(text, records, suite)
    ensures suite.failures > 0 <==> exists r :: r in records && Grave(text, r)
  {
    hide Reports, StringLe;
    WithVerdictIff(suite.cases, Verdict.Failure);
    if i :| 0 <= i < |suite.cases| && suite.cases[i].verdict == Verdict.Failure {
      FailureIff(text, records, suite.cases[i]);
    }
    if r :| r in records && Grave(text, r) {
      var p :| HitsProbe(text, p, r);
      FieldsSay(text, p, r);
      assert Seen(text, records, p);
      var i :| 0 <= i < |suite.cases| && suite.cases[i].name == p;
      FailureIff(text, records, suite.cases[i]);
    }
  }

  /** No suite of the written file fails exactly if no record is grave. */
  lemma {:induction false} FileFailsIffGrave(
    intOf: IntReader, show: Show, text: Text, records: seq<Record>, suite: Suite)
    requires ReadsBack(intOf, show) && text.Lawful() && SuiteFor(text, records, suite)
    ensures NothingFails(intOf, Xml(Wrapped(show, suite))) <==> forall r | r in records :: !Grave(text, r)
  {
    hide Reports, StringLe, SuiteElement, StatsOf, Grave, Iter, Tallied;
    FileHasOneSuite(intOf, show, suite);
    FailuresIffGrave(text, records, suite);
    var e := SuiteElement(show, suite);
    assert Failing(intOf, e) <==> suite.failures > 0;
    assert e in [e];
    assert NothingFails(intOf, Xml(Wrapped(show, suite))) <==> !Failing(intOf, e);
  }

  /**
   The layer's own file, combined while the garak report lay among the sub-tool files, is green exactly
   if no record is grave and no suite fails in the other files that can be read.
   */
  lemma {:induction false} LayerGreenIff(
    intOf: IntReader, strict: StrictReader, show: Show, write: IntWriter, files: map<string, File>, sub: string,
    text: Text, records: seq<Record>, suite: Suite)
    requires ReadsBack(intOf, show) && intOf("0") == 0 && text.Lawful() && SuiteFor(text, records, suite)
    requires sub in LLM_SUBS && FileAt(files, sub) == Xml(Wrapped(show, suite))
    ensures Green(intOf, Xml(Combined(strict, write, files, LLM_NAME, LLM_SUBS)))
       <==> && (forall r | r in records :: !Grave(text, r))
            && (forall other | other in LLM_SUBS && other != sub :: NothingFails(intOf, FileAt(files, other)))
  {
    hide NothingFails, Green, Combined, Grave, SuiteFor, Wrapped;
    CombinedGreenIff(intOf, strict, write, files, LLM_NAME, LLM_SUBS);
    FileFailsIffGrave(intOf, show, text, records, suite);
  }

  /** No layer but this one is in the way. */
  ghost predicate OtherLayersGreen(intOf: IntReader, files: map<string, File>) {
    AllNumbered();
    forall i | 0 <= i < |LAYERS| && LAYERS[i].number != REPORT_LAYER && LAYERS[i].number != LLM_LAYER ::
      Green(intOf, FileAt(files, LayerFile(LAYERS[i])))
  }

  /**
   From the probe records to the verdict of the gate: it is open exactly if no counted record that fired
   is high or critical, nothing fails in the other sub-tool files of the layer that can be read, and the
   other layers are green.
   */
  lemma {:induction false} GateOpenIff(
    intOf: IntReader, strict: StrictReader, show: Show, write: IntWriter,
    then_: map<string, File>, files: map<string, File>, sub: string, text: Text, records: seq<Record>, suite: Suite)
    requires ReadsBack(intOf, show) && intOf("0") == 0 && text.Lawful() && SuiteFor(text, records, suite)
    requires sub in LLM_SUBS && FileAt(then_, sub) == Xml(Wrapped(show, suite))
    requires FileAt(files, LayerFile(LAYERS[LLM_LAYER])) == Xml(Combined(strict, write, then_, LLM_NAME, LLM_SUBS))
    ensures ReportOf(intOf, files).ok
       <==> && (forall r | r in records :: !Grave(text, r))
            && (forall other | other in LLM_SUBS && other != sub :: NothingFails(intOf, FileAt(then_, other)))
            && OtherLayersGreen(intOf, files)
  {
    hide NothingFails, Green, Combined, Grave, SuiteFor, Wrapped, ReportOf, LayerFile, LLM_SUBS, ReadsBack;
    AllNumbered();
    OkIffLayersGreen(intOf, files);
    LayerGreenIff(intOf, strict, show, write, then_, sub, text, records, suite);
    assert forall i | 0 <= i < |LAYERS| :: LAYERS[i].number == i by {
      forall i | 0 <= i < |LAYERS|
        ensures LAYERS[i].number == i
      {
        RequiredLayers(i);
      }
    }
    assert LAYERS[LLM_LAYER].number != REPORT_LAYER;
  }

  /** A written case names its probe and gives its numbers; a skip also says how severe its hits were. */
  lemma {:induction false} CaseWritten(show: Show, c: Case)
    requires c != NO_RECORDS
    ensures
      var e := CaseElement(show, c);
      var sum := c.name + ": " + show(c.hits) + "/" + show(c.attempts) + " attempts succeeded";
      && e.tag == "testcase"
      && e.attrs == map["name" := c.name, "classname" := c.className,
                        "attempts" := show(c.attempts), "hits" := show(c.hits)]
      && (c.verdict == Clean ==> e.children == [])
      && (c.verdict == Verdict.Failure ==>
            e.children == [Element("failure", map["message" := sum, "type" := "garak." + c.name], [])])
      && (c.verdict == Verdict.Skipped ==>
            e.children == [Element("skipped", map["message" := sum + " (sev=" + c.severity + ")"], [])])
  {
  }

  // ---------- What the gate reports of the suite ----------

  lemma OneChild(child: Element, tag: string)
    ensures FindAll([child], tag) == if child.tag == tag then [child] else []
  {
    assert [child][1..] == [];
  }

  lemma OneTitled(child: Element, severity: Severity, tool: string, name: string, default: string, layer: nat)
    ensures Titled([child], severity, tool, name, default, layer)
         == [Finding(severity, tool, CaseTitle(name, Attr(child, "message", default)), layer)]
  {
    assert [child][1..] == [];
  }

  lemma NoneTitled(severity: Severity, tool: string, name: string, default: string, layer: nat)
    ensures Titled([], severity, tool, name, default, layer) == []
  {
  }

  lemma {:induction false} CaseReported(show: Show, c: Case, tool: string, layer: nat)
    ensures CaseFindings(CaseElement(show, c), tool, layer)
         == if c.verdict == Verdict.Failure
            then [Finding(High, tool, CaseTitle(c.name, Message(show, c)), layer)]
            else []
  {
    var e := CaseElement(show, c);
    assert e.attrs["name"] == c.name;
    if c.verdict == Clean {
      assert e.children == [];
    } else {
      assert e.children == [e.children[0]] && e.children[1..] == [];
      OneChild(e.children[0], "failure");
      OneChild(e.children[0], "error");
      hide FindAll;
      OneTitled(e.children[0], High, tool, c.name, "failure", layer);
      NoneTitled(High, tool, c.name, "failure", layer);
      NoneTitled(Critical, tool, c.name, "error", layer);
      assert Attr(e.children[0], "message", "failure") == Message(show, c);
    }
  }

  lemma {:induction false} InCaseElements(show: Show, cases: seq<Case>, e: Element)
    ensures e in CaseElements(show, cases) <==> exists i :: 0 <= i < |cases| && e == CaseElement(show, cases[i])
  {
    if cases == [] {
    } else {
      hide CaseElement;
      var n := |cases| - 1;
      InCaseElements(show, cases[..n], e);
      assert cases == cases[..n] + [cases[n]];
    }
  }

  /** What is noted of a failing case: the numbers of its attempts and hits. */
  ghost predicate FailureNoted(show: Show, c: Case, tool: string, layer: nat, f: Finding) {
    && c.verdict == Verdict.Failure
    && f.severity == High && f.tool == tool && f.layer == layer
    && f.title == CaseTitle(c.name, c.name + ": " + show(c.hits) + "/" + show(c.attempts) + " attempts succeeded")
  }

  lemma {:induction false} CaseNoted(show: Show, c: Case, tool: string, layer: nat, f: Finding)
    ensures f in CaseFindings(CaseElement(show, c), tool, layer) <==> FailureNoted(show, c, tool, layer, f)
  {
    hide CaseFindings, CaseElement;
    CaseReported(show, c, tool, layer);
    assert c.verdict == Verdict.Failure ==> c != NO_RECORDS;
  }

  lemma {:induction false} CasesNoted(show: Show, cases: seq<Case>, tool: string, layer: nat, f: Finding)
    ensures f in CasesFindings(CaseElements(show, cases), tool, layer)
       <==> exists i :: 0 <= i < |cases| && FailureNoted(show, cases[i], tool, layer, f)
  {
    hide *;
    var es := CaseElements(show, cases);
    CasesReportIff(es, tool, layer, f);
    if e :| e in es && f in CaseFindings(e, tool, layer) {
      InCaseElements(show, cases, e);
      var i :| 0 <= i < |cases| && e == CaseElement(show, cases[i]);
      CaseNoted(show, cases[i], tool, layer, f);
    }
    if i :| 0 <= i < |cases| && FailureNoted(show, cases[i], tool, layer, f) {
      CaseNoted(show, cases[i], tool, layer, f);
      InCaseElements(show, cases, CaseElement(show, cases[i]));
    }
  }

  lemma SuiteWalk(show: Show, suite: Suite)
    ensures Iter(SuiteElement(show, suite), "testcase") == CaseElements(show, suite.cases)
  {
    hide CaseElements, Counters, WithVerdict;
    var e := SuiteElement(show, suite);
    WalkOfCases(show, suite.cases);
    assert Iter(e, "testcase") == IterAll(e.children, "testcase");
  }

  lemma SuiteNamed(show: Show, suite: Suite)
    requires suite.name != ""
    ensures ToolName(SuiteElement(show, suite)) == suite.name
  {
    hide CaseElements;
  }

  /**
   Of the written suite the gate reports one kind of finding for each failing case, with the numbers of
   its attempts and hits, and nothing else.
   */
  lemma {:induction false} ReportedOfSuite(show: Show, suite: Suite, layer: nat, f: Finding)
    requires suite.name != ""
    ensures f in SuiteFindings(SuiteElement(show, suite), layer)
       <==> exists i :: 0 <= i < |suite.cases| && FailureNoted(show, suite.cases[i], suite.name, layer, f)
  {
    hide CaseElements, CasesFindings, FailureNoted, SuiteElement, Iter, ToolName;
    CasesNoted(show, suite.cases, suite.name, layer, f);
    SuiteWalk(show, suite);
    SuiteNamed(show, suite);
  }
}
