/**
 The combiner that writes a layer's own file out of its sub-tools' files: every suite it finds is
 appended under one root, a missing file leaves a placeholder, an unreadable one nothing.
 */
module LayerCombiner {
  import opened GateReport
  import opened Options
  import opened Sorting

  datatype Totals = Totals(tests: int, failures: int, errors: int, skipped: int)

  /** The combiner's own number format: it refuses what is no plain integer. */
  type StrictReader = string -> Option<int>

  type IntWriter = int -> string

  function NoTotals(): Totals { Totals(0, 0, 0, 0) }

  // ---------- The suites of the combined file ----------

  function Placeholder(name: string, sub: string): Element {
    Element(
      "testsuite",
      map["name" := name + "-missing-" + sub, "tests" := "1", "failures" := "0", "errors" := "0", "skipped" := "1"],
      [Element("testcase", map["name" := "sub-file-missing-" + sub, "classname" := "combiner"],
               [Element("skipped", map["message" := "expected sub-tool XML not found: " + sub], [])])])
  }

  function SuitesFrom(files: map<string, File>, name: string): string -> seq<Element> {
    (sub: string) =>
      match FileAt(files, sub)
      case Missing => [Placeholder(name, sub)]
      case Garbled => []
      case Xml(root) => Iter(root, "testsuite")
  }

  function CombinedSuites(files: map<string, File>, name: string, subs: seq<string>): seq<Element> {
    Collect(SuitesFrom(files, name), subs)
  }

  // ---------- The totals ----------

  /** An attribute of a suite; an empty one counts as zero. */
  function StrictAttr(strict: StrictReader, suite: Element, key: string): Option<int> {
    var text := Attr(suite, key, "0");
    strict(if text == "" then "0" else text)
  }

  /** A counter that cannot be read stops the counting of its suite, with the counters before it counted. */
  function Counted(strict: StrictReader, totals: Totals, suite: Element): Totals {
    match StrictAttr(strict, suite, "tests")
    case None => totals
    case Some(t) =>
      var totals := totals.(tests := totals.tests + t);
      match StrictAttr(strict, suite, "failures")
      case None => totals
      case Some(f) =>
        var totals := totals.(failures := totals.failures + f);
        match StrictAttr(strict, suite, "errors")
        case None => totals
        case Some(e) =>
          var totals := totals.(errors := totals.errors + e);
          match StrictAttr(strict, suite, "skipped")
          case None => totals
          case Some(s) => totals.(skipped := totals.skipped + s)
  }

  function CountedAll(strict: StrictReader, totals: Totals, suites: seq<Element>): Totals {
    if suites == [] then totals
    else Counted(strict, CountedAll(strict, totals, suites[..|suites| - 1]), suites[|suites| - 1])
  }

  function TotalsOf(strict: StrictReader, files: map<string, File>, subs: seq<string>): Totals {
    if subs == [] then NoTotals()
    else
      var before := TotalsOf(strict, files, subs[..|subs| - 1]);
      match FileAt(files, subs[|subs| - 1])
      case Missing => before.(tests := before.tests + 1, skipped := before.skipped + 1)
      case Garbled => before
      case Xml(root) => CountedAll(strict, before, Iter(root, "testsuite"))
  }

  function Combined(strict: StrictReader, show: IntWriter, files: map<string, File>, name: string, subs: seq<string>)
    : Element
  {
    var totals := TotalsOf(strict, files, subs);
    Element(
      "testsuites",
      map["name" := name, "tests" := show(totals.tests), "failures" := show(totals.failures),
          "errors" := show(totals.errors)],
      CombinedSuites(files, name, subs))
  }

  // ---------- The combiner ----------

  method CountSuites(strict: StrictReader, before: Totals, suites: seq<Element>) returns (totals: Totals)
    ensures totals == CountedAll(strict, before, suites)
  {
    hide Counted;
    totals := before;
    for i := 0 to |suites|
      invariant totals == CountedAll(strict, before, suites[..i])
    {
      assert suites[..i + 1][..i] == suites[..i];
      totals := Counted(strict, totals, suites[i]);
    }
    assert suites[..|suites|] == suites;
  }

  method Combine(strict: StrictReader, show: IntWriter, files: map<string, File>, name: string, subs: seq<string>)
    returns (root: Element, exitCode: int)
    ensures root == Combined(strict, show, files, name, subs)
    ensures exitCode == 0 <==> TotalsOf(strict, files, subs).failures == 0 && TotalsOf(strict, files, subs).errors == 0
  {
    hide CountedAll, Iter, Collect;
    var totals := NoTotals();
    var suites: seq<Element> := [];
    NothingCollected(SuitesFrom(files, name));
    for i := 0 to |subs|
      invariant totals == TotalsOf(strict, files, subs[..i])
      invariant suites == Collect(SuitesFrom(files, name), subs[..i])
    {
      assert subs[..i + 1] == subs[..i] + [subs[i]] && subs[..i + 1][..i] == subs[..i];
      CollectLast(SuitesFrom(files, name), subs[..i], subs[i]);
      match FileAt(files, subs[i])
      case Missing =>
        suites := suites + [Placeholder(name, subs[i])];
        totals := totals.(tests := totals.tests + 1, skipped := totals.skipped + 1);
      case Garbled =>
        assert suites + [] == suites;
      case Xml(sub) =>
        var found := Iter(sub, "testsuite");
        totals := CountSuites(strict, totals, found);
        suites := suites + found;
    }
    assert subs[..|subs|] == subs;
    root := Element(
      "testsuites",
      map["name" := name, "tests" := show(totals.tests), "failures" := show(totals.failures),
          "errors" := show(totals.errors)],
      suites);
    exitCode := if totals.failures != 0 || totals.errors != 0 then 1 else 0;
  }

  // ---------- What the gate finds in the combined file ----------

  lemma {:induction false} InIterAll(es: seq<Element>, tag: string, c: Element)
    ensures c in IterAll(es, tag) <==> exists e :: e in es && c in Iter(e, tag)
  {
    if es == [] {
    } else {
      hide Iter;
      InIterAll(es[1..], tag, c);
      assert es == [es[0]] + es[1..];
      assert IterAll(es, tag) == Iter(es[0], tag) + IterAll(es[1..], tag);
      assert es[0] in es;
      if e :| e in es && c in Iter(e, tag) {
        assert e == es[0] || e in es[1..];
      }
      if e :| e in es[1..] && c in Iter(e, tag) {
        assert e in es;
      }
    }
  }

  lemma {:induction false} FoundBelowAny(es: seq<Element>, s: Element, c: Element, tag: string)
    requires s in IterAll(es, tag) && c in Iter(s, tag)
    ensures c in IterAll(es, tag)
    decreases es, 1
  {
    if s in Iter(es[0], tag) {
      FoundBelow(es[0], s, c, tag);
    } else {
      FoundBelowAny(es[1..], s, c, tag);
    }
  }

  /** What is found below an element that was found is found from the top. */
  lemma {:induction false} FoundBelow(e: Element, s: Element, c: Element, tag: string)
    requires s in Iter(e, tag) && c in Iter(s, tag)
    ensures c in Iter(e, tag)
    decreases e, 0
  {
    if s != e {
      FoundBelowAny(e.children, s, c, tag);
    }
  }

  lemma {:induction false} FoundHasTagAny(es: seq<Element>, s: Element, tag: string)
    requires s in IterAll(es, tag)
    ensures s.tag == tag && s in Iter(s, tag)
    decreases es, 1
  {
    if s in Iter(es[0], tag) {
      FoundHasTag(es[0], s, tag);
    } else {
      FoundHasTagAny(es[1..], s, tag);
    }
  }

  lemma {:induction false} FoundHasTag(e: Element, s: Element, tag: string)
    requires s in Iter(e, tag)
    ensures s.tag == tag && s in Iter(s, tag)
    decreases e, 0
  {
    if s != e || e.tag != tag {
      FoundHasTagAny(e.children, s, tag);
    }
  }

  /** Appending the suites of a tree one by one, nested ones again beside the outer, adds no suite and loses none. */
  lemma {:induction false} FlattenedSuites(root: Element, c: Element)
    ensures c in IterAll(Iter(root, "testsuite"), "testsuite") <==> c in Iter(root, "testsuite")
  {
    hide Iter;
    InIterAll(Iter(root, "testsuite"), "testsuite", c);
    if s :| s in Iter(root, "testsuite") && c in Iter(s, "testsuite") {
      FoundBelow(root, s, c, "testsuite");
    }
    if c in Iter(root, "testsuite") {
      FoundHasTag(root, c, "testsuite");
    }
  }

  lemma {:induction false} PlaceholderPasses(intOf: IntReader, name: string, sub: string)
    requires intOf("0") == 0
    ensures Iter(Placeholder(name, sub), "testsuite") == [Placeholder(name, sub)]
    ensures !Failing(intOf, Placeholder(name, sub))
  {
    var e := Placeholder(name, sub);
    var case_ := e.children[0];
    var skip := case_.children[0];
    assert [skip][1..] == [] && [case_][1..] == [];
    forall tag | tag in ["testsuite", "failure", "error"]
      ensures IterAll(e.children, tag) == []
    {
      assert Iter(skip, tag) == [];
      assert IterAll([skip], tag) == Iter(skip, tag) + IterAll([skip][1..], tag);
      assert Iter(case_, tag) == [];
      assert IterAll([case_], tag) == Iter(case_, tag) + IterAll([case_][1..], tag);
    }
    assert "testsuite" in ["testsuite", "failure", "error"] && "failure" in ["testsuite", "failure", "error"]
        && "error" in ["testsuite", "failure", "error"];
    assert [e] + [] == [e];
  }

  /** No suite of the file fails; a file that is missing or unreadable has none. */
  ghost predicate NothingFails(intOf: IntReader, file: File) {
    file.Xml? ==> forall s | s in Iter(file.root, "testsuite") :: !Failing(intOf, s)
  }

  lemma {:induction false} SubGreenIff(intOf: IntReader, files: map<string, File>, name: string, sub: string)
    requires intOf("0") == 0
    ensures (forall c | c in IterAll(SuitesFrom(files, name)(sub), "testsuite") :: !Failing(intOf, c))
       <==> NothingFails(intOf, FileAt(files, sub))
  {
    hide Iter, Failing, Placeholder;
    var suites := SuitesFrom(files, name)(sub);
    match FileAt(files, sub)
    case Missing =>
      PlaceholderPasses(intOf, name, sub);
      assert suites[1..] == [];
      assert IterAll(suites, "testsuite") == Iter(suites[0], "testsuite") + IterAll(suites[1..], "testsuite");
    case Garbled =>
    case Xml(root) =>
      forall c
        ensures c in IterAll(suites, "testsuite") <==> c in Iter(root, "testsuite")
      {
        FlattenedSuites(root, c);
      }
  }

  lemma NothingFound(tag: string)
    ensures IterAll([], tag) == []
  {
  }

  lemma {:induction false} CombinedGreenBySub(
    intOf: IntReader, files: map<string, File>, name: string, subs: seq<string>)
    requires intOf("0") == 0
    ensures (forall c | c in IterAll(CombinedSuites(files, name, subs), "testsuite") :: !Failing(intOf, c))
       <==> forall sub | sub in subs :: NothingFails(intOf, FileAt(files, sub))
  {
    hide Iter, IterAll, Failing, SuitesFrom, NothingFails;
    if subs == [] {
      NothingFound("testsuite");
    } else {
      var of := SuitesFrom(files, name);
      CombinedGreenBySub(intOf, files, name, subs[1..]);
      SubGreenIff(intOf, files, name, subs[0]);
      IterAllAppend(of(subs[0]), CombinedSuites(files, name, subs[1..]), "testsuite");
      assert subs == [subs[0]] + subs[1..];
    }
  }

  /**
   The combined file is green exactly if no suite fails in any sub-tool file that is there and can be
   read.  Files that are missing or unreadable cannot close the gate.
   */
  lemma {:induction false} CombinedGreenIff(
    intOf: IntReader, strict: StrictReader, show: IntWriter, files: map<string, File>, name: string, subs: seq<string>)
    requires intOf("0") == 0
    ensures Green(intOf, Xml(Combined(strict, show, files, name, subs)))
       <==> forall sub | sub in subs :: NothingFails(intOf, FileAt(files, sub))
  {
    hide Failing, NothingFails, CombinedSuites, TotalsOf;
    var root := Combined(strict, show, files, name, subs);
    CombinedGreenBySub(intOf, files, name, subs);
    var suites := SuitesOf(root);
    assert suites == IterAll(root.children, "testsuite");
    assert forall i | 0 <= i < |suites| :: suites[i] in suites;
  }

  // ---------- The exit code ----------

  /** What a suite adds to the failures and errors counted. */
  function Contribution(strict: StrictReader, suite: Element): (int, int) {
    match StrictAttr(strict, suite, "tests")
    case None => (0, 0)
    case Some(_) =>
      match StrictAttr(strict, suite, "failures")
      case None => (0, 0)
      case Some(f) =>
        match StrictAttr(strict, suite, "errors")
        case None => (f, 0)
        case Some(e) => (f, e)
  }

  lemma {:induction false} CountedAdds(strict: StrictReader, totals: Totals, suite: Element)
    ensures Counted(strict, totals, suite).failures == totals.failures + Contribution(strict, suite).0
    ensures Counted(strict, totals, suite).errors == totals.errors + Contribution(strict, suite).1
  {
    hide StrictAttr;
  }

  ghost predicate Spotless(totals: Totals) {
    totals.failures == 0 && totals.errors == 0
  }

  ghost predicate NotNegative(strict: StrictReader, suite: Element) {
    Contribution(strict, suite).0 >= 0 && Contribution(strict, suite).1 >= 0
  }

  lemma {:induction false} SuitesCounted(strict: StrictReader, totals: Totals, suites: seq<Element>)
    requires totals.failures >= 0 && totals.errors >= 0
    requires forall s | s in suites :: NotNegative(strict, s)
    ensures
      var after := CountedAll(strict, totals, suites);
      && after.failures >= 0 && after.errors >= 0
      && (Spotless(after) <==> Spotless(totals) && forall s | s in suites :: Contribution(strict, s) == (0, 0))
  {
    if suites == [] {
    } else {
      hide Contribution, Counted;
      var front, last := suites[..|suites| - 1], suites[|suites| - 1];
      assert suites == front + [last] && last in suites;
      SuitesCounted(strict, totals, front);
      assert NotNegative(strict, last);
      CountedAdds(strict, CountedAll(strict, totals, front), last);
      assert Contribution(strict, last) == (Contribution(strict, last).0, Contribution(strict, last).1);
    }
  }

  /** A property of every suite in the sub-tool files that can be read. */
  ghost predicate InEverySuite(files: map<string, File>, subs: seq<string>, holds: Element -> bool) {
    forall sub | sub in subs && FileAt(files, sub).Xml? ::
      forall s | s in Iter(FileAt(files, sub).root, "testsuite") :: holds(s)
  }

  lemma {:induction false} FilesCounted(strict: StrictReader, files: map<string, File>, subs: seq<string>)
    requires InEverySuite(files, subs, s => NotNegative(strict, s))
    ensures
      var totals := TotalsOf(strict, files, subs);
      && totals.failures >= 0 && totals.errors >= 0
      && (Spotless(totals) <==> InEverySuite(files, subs, s => Contribution(strict, s) == (0, 0)))
  {
    if subs == [] {
    } else {
      hide Contribution, NotNegative, CountedAll, Iter;
      var front, last := subs[..|subs| - 1], subs[|subs| - 1];
      assert subs == front + [last] && last in subs;
      FilesCounted(strict, files, front);
      var file := FileAt(files, last);
      if file.Xml? {
        SuitesCounted(strict, TotalsOf(strict, files, front), Iter(file.root, "testsuite"));
      }
    }
  }

  /** What the combiner can read the gate reads alike, and an absent counter is zero for both. */
  ghost predicate ReadersAgree(intOf: IntReader, strict: StrictReader) {
    && (forall text, v :: strict(text) == Some(v) ==> intOf(text) == v)
    && strict("0") == Some(0)
  }

  /** The gate counts something in the suite and the combiner nothing. */
  ghost predicate Missed(intOf: IntReader, strict: StrictReader, suite: Element) {
    Failing(intOf, suite) && Contribution(strict, suite) == (0, 0)
  }

  /** What the combiner counts the gate counts too. */
  lemma {:induction false} ContributionFails(intOf: IntReader, strict: StrictReader, suite: Element)
    requires ReadersAgree(intOf, strict) && NotNegative(strict, suite)
    ensures Contribution(strict, suite) != (0, 0) ==> Failing(intOf, suite)
  {
    hide Iter;
    forall key
      ensures StrictAttr(strict, suite, key).Some? && StrictAttr(strict, suite, key).value > 0 ==>
                IntAttr(intOf, suite, key) == StrictAttr(strict, suite, key).value
    {
    }
  }

  /**
   The combiner's exit code against the verdict the gate comes to: with no negative counters the file is
   green if and only if the exit code is zero and no suite is missed.
   */
  lemma {:induction false} VerdictIff(
    intOf: IntReader, strict: StrictReader, show: IntWriter, files: map<string, File>, name: string, subs: seq<string>)
    requires intOf("0") == 0 && ReadersAgree(intOf, strict)
    requires InEverySuite(files, subs, s => NotNegative(strict, s))
    ensures Green(intOf, Xml(Combined(strict, show, files, name, subs)))
       <==> Spotless(TotalsOf(strict, files, subs)) && InEverySuite(files, subs, s => !Missed(intOf, strict, s))
  {
    hide NotNegative, Contribution, Failing, Green, Combined, TotalsOf, Iter, ReadersAgree;
    FilesCounted(strict, files, subs);
    CombinedGreenIff(intOf, strict, show, files, name, subs);
    forall sub, s | sub in subs && FileAt(files, sub).Xml? && s in Iter(FileAt(files, sub).root, "testsuite")
      ensures !Failing(intOf, s) <==> Contribution(strict, s) == (0, 0) && !Missed(intOf, strict, s)
    {
      ContributionFails(intOf, strict, s);
    }
  }

  /** A counter that is zero, or absent, over elements of its kind. */
  ghost predicate Uncounted(intOf: IntReader, suite: Element, key: string, tag: string) {
    IntAttr(intOf, suite, key) == 0 && Iter(suite, tag) != []
  }

  /** Why a suite is missed: a counter cannot be read, or one is zero over elements of its kind. */
  lemma {:induction false} MissedBecause(intOf: IntReader, strict: StrictReader, suite: Element)
    requires ReadersAgree(intOf, strict) && intOf("") == 0 && Missed(intOf, strict, suite)
    ensures || (exists key :: key in ["tests", "failures", "errors"] && StrictAttr(strict, suite, key).None?)
            || Uncounted(intOf, suite, "failures", "failure")
            || Uncounted(intOf, suite, "errors", "error")
  {
    hide Iter;
    assert "tests" in ["tests", "failures", "errors"] && "failures" in ["tests", "failures", "errors"]
        && "errors" in ["tests", "failures", "errors"];
  }

  /** A suite without counters around a failing case. */
  const UNCOUNTED_SUITE: Element := Element(
    "testsuite", map[], [Element("testcase", map[], [Element("failure", map[], [])])])

  lemma {:induction false} UncountedFails(intOf: IntReader)
    ensures Failing(intOf, UNCOUNTED_SUITE) && UNCOUNTED_SUITE in Iter(UNCOUNTED_SUITE, "testsuite")
  {
    var failure := Element("failure", map[], []);
    var case_ := Element("testcase", map[], [failure]);
    assert failure in Iter(failure, "failure");
    assert failure in IterAll([failure], "failure");
    assert failure in Iter(case_, "failure");
    assert failure in IterAll([case_], "failure");
    assert failure in Iter(UNCOUNTED_SUITE, "failure");
  }

  lemma {:induction false} OnlySuite(s: Element)
    requires s in Iter(UNCOUNTED_SUITE, "testsuite")
    ensures s == UNCOUNTED_SUITE
  {
    var failure := Element("failure", map[], []);
    var case_ := Element("testcase", map[], [failure]);
    assert [failure][1..] == [] && [case_][1..] == [];
    assert IterAll([failure], "testsuite") == [];
    assert IterAll([case_], "testsuite") == [];
  }

  /** The exit code is zero, and the gate finds the layer red. */
  lemma {:induction false} ExitCodeMisses(
    intOf: IntReader, strict: StrictReader, show: IntWriter, name: string, sub: string)
    requires intOf("0") == 0 && strict("0") == Some(0)
    ensures
      var files := map[sub := Xml(UNCOUNTED_SUITE)];
      Spotless(TotalsOf(strict, files, [sub])) && !Green(intOf, Xml(Combined(strict, show, files, name, [sub])))
  {
    var files := map[sub := Xml(UNCOUNTED_SUITE)];
    UncountedFails(intOf);
    CombinedGreenIff(intOf, strict, show, files, name, [sub]);
    hide Combined, Green, Failing;
    assert sub in [sub] && FileAt(files, sub) == Xml(UNCOUNTED_SUITE);
    forall s | s in Iter(UNCOUNTED_SUITE, "testsuite")
      ensures s == UNCOUNTED_SUITE
    {
      OnlySuite(s);
    }
    assert Contribution(strict, UNCOUNTED_SUITE) == (0, 0);
    FilesCounted(strict, files, [sub]);
  }
}
