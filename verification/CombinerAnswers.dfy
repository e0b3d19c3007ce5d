/** What a combined file holds, and the counters of its root, in terms of the sub-tools' files. */
module CombinerAnswers {
  import opened GateAnswers
  import opened GateReport
  import opened LayerCombiner
  import opened Options
  import opened Sorting

  ghost predicate Absent(files: map<string, File>, sub: string) {
    sub !in files || files[sub].Missing?
  }

  /** The suite is one of a sub-tool's file, or stands for a file that is missing. */
  ghost predicate ComesFrom(files: map<string, File>, name: string, sub: string, s: Element) {
    if Absent(files, sub) then s == Placeholder(name, sub)
    else files[sub].Xml? && s.tag == "testsuite" && Within(files[sub].root, s)
  }

  lemma {:induction false} InCollect(f: string -> seq<Element>, subs: seq<string>, s: Element)
    ensures s in Collect(f, subs) <==> exists sub :: sub in subs && s in f(sub)
  {
    if subs == [] {
    } else {
      InCollect(f, subs[1..], s);
      assert subs == [subs[0]] + subs[1..];
    }
  }

  /** The suites of the combined file are those of the files that can be read, and one for each missing file. */
  lemma {:induction false} CombinedHolds(
    strict: StrictReader, show: IntWriter, files: map<string, File>, name: string, subs: seq<string>, s: Element)
    ensures s in Combined(strict, show, files, name, subs).children
       <==> exists sub :: sub in subs && ComesFrom(files, name, sub, s)
  {
    hide Within, Iter, TotalsOf, Placeholder;
    InCollect(SuitesFrom(files, name), subs, s);
    forall sub
      ensures s in SuitesFrom(files, name)(sub) <==> ComesFrom(files, name, sub, s)
    {
      if sub in files && files[sub].Xml? {
        WalkMeets(files[sub].root, "testsuite", s);
      }
    }
  }

  /** What stands for a missing file is a suite with one test case, which is skipped and names the file. */
  lemma {:induction false} PlaceholderSays(name: string, sub: string)
    ensures
      var e := Placeholder(name, sub);
      && e.tag == "testsuite" && e.attrs["name"] == name + "-missing-" + sub
      && e.attrs["tests"] == "1" && e.attrs["skipped"] == "1" && e.attrs["failures"] == "0" && e.attrs["errors"] == "0"
      && Tally(e, "testcase") == 1 && Tally(e, "skipped") == 1 && Tally(e, "failure") == 0 && Tally(e, "error") == 0
      && |e.children| == 1 && e.children[0].tag == "testcase" && HasChild(e.children[0], "skipped")
      && e.children[0].attrs["name"] == "sub-file-missing-" + sub
  {
    var e := Placeholder(name, sub);
    var case_ := e.children[0];
    var skip := case_.children[0];
    assert e.children == [case_] && case_.children == [skip] && [skip][1..] == [] && [case_][1..] == [];
    forall tag
      ensures Tally(e, tag) == (if tag == "testsuite" then 1 else 0) + (if tag == "testcase" then 1 else 0)
                               + if tag == "skipped" then 1 else 0
    {
      assert Tally(skip, tag) == if tag == "skipped" then 1 else 0;
      assert TallyAll([skip], tag) == Tally(skip, tag) + TallyAll([skip][1..], tag);
      assert TallyAll([case_], tag) == Tally(case_, tag) + TallyAll([case_][1..], tag);
    }
  }

  // ---------- The counters of the root ----------

  /** A counter of a suite; an absent or empty one is zero. */
  function ReadAs(strict: StrictReader, key: string): Element -> int {
    (s: Element) =>
      if key !in s.attrs || s.attrs[key] == "" then 0
      else match strict(s.attrs[key]) case Some(n) => n case None => 0
  }

  ghost predicate CanRead(strict: StrictReader, s: Element, key: string) {
    key in s.attrs && s.attrs[key] != "" ==> strict(s.attrs[key]).Some?
  }

  ghost predicate AllReadable(strict: StrictReader, suites: seq<Element>) {
    forall s | s in suites ::
      CanRead(strict, s, "tests") && CanRead(strict, s, "failures") && CanRead(strict, s, "errors")
      && CanRead(strict, s, "skipped")
  }

  function Sums(strict: StrictReader, suites: seq<Element>): Totals {
    Totals(Sum(ReadAs(strict, "tests"), suites), Sum(ReadAs(strict, "failures"), suites),
           Sum(ReadAs(strict, "errors"), suites), Sum(ReadAs(strict, "skipped"), suites))
  }

  function Plus(a: Totals, b: Totals): Totals {
    Totals(a.tests + b.tests, a.failures + b.failures, a.errors + b.errors, a.skipped + b.skipped)
  }

  lemma {:induction false} SumAppend(of: Element -> int, a: seq<Element>, b: seq<Element>)
    ensures Sum(of, a + b) == Sum(of, a) + Sum(of, b)
  {
    if b == [] {
      assert a + b == a;
    } else {
      assert (a + b)[..|a + b| - 1] == a + b[..|b| - 1];
      SumAppend(of, a, b[..|b| - 1]);
    }
  }

  lemma SumsAppend(strict: StrictReader, a: seq<Element>, b: seq<Element>)
    ensures Sums(strict, a + b) == Plus(Sums(strict, a), Sums(strict, b))
  {
    SumAppend(ReadAs(strict, "tests"), a, b);
    SumAppend(ReadAs(strict, "failures"), a, b);
    SumAppend(ReadAs(strict, "errors"), a, b);
    SumAppend(ReadAs(strict, "skipped"), a, b);
  }

  lemma {:induction false} OneCounted(strict: StrictReader, totals: Totals, s: Element)
    requires strict("0") == Some(0) && AllReadable(strict, [s])
    ensures Counted(strict, totals, s) == Plus(totals, Sums(strict, [s]))
  {
    assert s in [s] && [s][..0] == [];
    forall key
      ensures Sum(ReadAs(strict, key), [s]) == ReadAs(strict, key)(s)
    {
      assert Sum(ReadAs(strict, key), [s]) == Sum(ReadAs(strict, key), [s][..0]) + ReadAs(strict, key)(s);
    }
  }

  lemma {:induction false} AllCounted(strict: StrictReader, totals: Totals, suites: seq<Element>)
    requires strict("0") == Some(0) && AllReadable(strict, suites)
    ensures CountedAll(strict, totals, suites) == Plus(totals, Sums(strict, suites))
  {
    if suites == [] {
    } else {
      hide Counted, Sums;
      var front, last := suites[..|suites| - 1], suites[|suites| - 1];
      assert suites == front + [last] && last in suites;
      AllCounted(strict, totals, front);
      OneCounted(strict, CountedAll(strict, totals, front), last);
      SumsAppend(strict, front, [last]);
    }
  }

  lemma {:induction false} PlaceholderCounts(strict: StrictReader, name: string, sub: string)
    requires strict("0") == Some(0) && strict("1") == Some(1)
    ensures Sums(strict, [Placeholder(name, sub)]) == Totals(1, 0, 0, 1)
  {
    var e := Placeholder(name, sub);
    assert [e][..0] == [];
    forall key
      ensures Sum(ReadAs(strict, key), [e]) == ReadAs(strict, key)(e)
    {
      assert Sum(ReadAs(strict, key), [e]) == Sum(ReadAs(strict, key), [e][..0]) + ReadAs(strict, key)(e);
    }
  }

  lemma NothingSummed(strict: StrictReader)
    ensures Sums(strict, []) == Totals(0, 0, 0, 0)
  {
  }

  /** One more sub-tool adds the sums over its suites. */
  lemma {:induction false} SubAdds(
    strict: StrictReader, files: map<string, File>, name: string, front: seq<string>, last: string)
    requires strict("0") == Some(0) && strict("1") == Some(1) && AllReadable(strict, SuitesFrom(files, name)(last))
    ensures TotalsOf(strict, files, front + [last])
         == Plus(TotalsOf(strict, files, front), Sums(strict, SuitesFrom(files, name)(last)))
  {
    hide CountedAll, Sums, Iter, Placeholder;
    assert (front + [last])[..|front|] == front;
    match FileAt(files, last)
    case Missing => PlaceholderCounts(strict, name, last);
    case Garbled => NothingSummed(strict);
    case Xml(root) => AllCounted(strict, TotalsOf(strict, files, front), Iter(root, "testsuite"));
  }

  /** If all counters can be read, the totals are the sums over the suites of the combined file. */
  lemma {:induction false} TotalsAreSums(
    strict: StrictReader, files: map<string, File>, name: string, subs: seq<string>)
    requires strict("0") == Some(0) && strict("1") == Some(1) && AllReadable(strict, CombinedSuites(files, name, subs))
    ensures TotalsOf(strict, files, subs) == Sums(strict, CombinedSuites(files, name, subs))
  {
    if subs == [] {
    } else {
      hide TotalsOf, Sums, SuitesFrom, CanRead;
      var front, last := subs[..|subs| - 1], subs[|subs| - 1];
      assert subs == front + [last];
      CollectLast(SuitesFrom(files, name), front, last);
      var found := SuitesFrom(files, name)(last);
      assert CombinedSuites(files, name, subs) == CombinedSuites(files, name, front) + found;
      TotalsAreSums(strict, files, name, front);
      SumsAppend(strict, CombinedSuites(files, name, front), found);
      SubAdds(strict, files, name, front, last);
    }
  }

  /** If all counters can be read, the root of the combined file shows the sums over the suites in it. */
  lemma {:induction false} RootShowsSums(
    strict: StrictReader, show: IntWriter, files: map<string, File>, name: string, subs: seq<string>)
    requires strict("0") == Some(0) && strict("1") == Some(1)
    requires AllReadable(strict, Combined(strict, show, files, name, subs).children)
    ensures
      var root := Combined(strict, show, files, name, subs);
      && root.tag == "testsuites"
      && root.attrs == map["name" := name,
                           "tests" := show(Sum(ReadAs(strict, "tests"), root.children)),
                           "failures" := show(Sum(ReadAs(strict, "failures"), root.children)),
                           "errors" := show(Sum(ReadAs(strict, "errors"), root.children))]
  {
    hide TotalsOf, CombinedSuites, AllReadable, ReadAs;
    TotalsAreSums(strict, files, name, subs);
  }
}
