/** What one run of the flake filter keeps: exact counters, the number of findings, and itself. */
module FlakeFilterProofs {
  import opened FlakeFilter
  import opened Options

  ghost predicate WellFormed(cases: seq<TestCase>, suites: seq<Suite>) {
    forall i | 0 <= i < |suites| :: InArena(cases, suites[i].members)
  }

  /** A suite's counters say how many failures, errors and skips its cases have. */
  ghost predicate ExactSuite(cases: seq<TestCase>, suite: Suite)
    requires InArena(cases, suite.members)
  {
    && Counter(suite.counters, "failures") == CountIn(cases, suite.members, FAILURE)
    && Counter(suite.counters, "errors") == CountIn(cases, suite.members, ERROR)
    && Counter(suite.counters, "skipped") == CountIn(cases, suite.members, SKIPPED)
  }

  ghost predicate Exact(cases: seq<TestCase>, suites: seq<Suite>)
    requires WellFormed(cases, suites)
  {
    forall i | 0 <= i < |suites| :: ExactSuite(cases, suites[i])
  }

  ghost predicate RootExact(root: map<string, int>, suites: seq<Suite>) {
    forall key | key in ["failures", "errors", "skipped"] :: Counter(root, key) == SumCounter(suites, key)
  }

  function CasesAfter(rules: Rules, cases: seq<TestCase>, suites: seq<Suite>): (r: seq<TestCase>)
    ensures |r| == |cases|
  {
    Processed(rules, cases, CasesBefore(suites, |suites|))
  }

  ghost function AllSuitesAfter(rules: Rules, cases: seq<TestCase>, suites: seq<Suite>): (r: seq<Suite>)
    requires WellFormed(cases, suites)
    ensures |r| == |suites| && forall i | 0 <= i < |suites| :: r[i].members == suites[i].members
  {
    SuitesAfter(rules, cases, suites, |suites|)
  }

  // ---------- One case ----------

  /** Conversion moves children from the failures and errors to the skips, and loses none. */
  lemma {:induction false} CaseCounts(rules: Rules, name: string, children: seq<Child>)
    ensures
      var after := ConvertAll(rules, name, children);
      var f, e := HitCount(rules, name, children, FAILURE), HitCount(rules, name, children, ERROR);
      && TagCount(after, FAILURE) == TagCount(children, FAILURE) - f
      && TagCount(after, ERROR) == TagCount(children, ERROR) - e
      && TagCount(after, SKIPPED) == TagCount(children, SKIPPED) + f + e
  {
    if children == [] {
    } else {
      CaseCounts(rules, name, children[1..]);
      var after := ConvertAll(rules, name, children);
      assert after[1..] == ConvertAll(rules, name, children[1..]);
      assert FAILURE != ERROR && ERROR != SKIPPED && FAILURE != SKIPPED;
    }
  }

  /** Every child keeps its position; those that are not hits are kept as they are, the others become skips. */
  lemma {:induction false} ChildrenKept(rules: Rules, c: TestCase, k: nat)
    requires k < |c.children|
    ensures |ConvertCase(rules, c).children| == |c.children| && ConvertCase(rules, c).name == c.name
    ensures ConvertCase(rules, c).children[k] == c.children[k] <==> HitOf(rules, c.name, c.children[k]).None?
    ensures ConvertCase(rules, c).children[k] != c.children[k] ==>
              c.children[k].tag in [FAILURE, ERROR] && ConvertCase(rules, c).children[k].tag == SKIPPED
  {
    assert FAILURE != SKIPPED && ERROR != SKIPPED;
  }

  // ---------- One suite ----------

  ghost function CaseHits(rules: Rules, c: TestCase): nat {
    HitCount(rules, c.name, c.children, FAILURE) + HitCount(rules, c.name, c.children, ERROR)
  }

  lemma {:induction false} SuiteCounts(
    rules: Rules, cases: seq<TestCase>, members: seq<nat>, done: set<nat>)
    requires InArena(cases, members) && Listed(members) <= done
    ensures
      var after := Processed(rules, cases, done);
      var f, e := HitsIn(rules, cases, members, {}, FAILURE), HitsIn(rules, cases, members, {}, ERROR);
      && CountIn(after, members, FAILURE) == CountIn(cases, members, FAILURE) - f
      && CountIn(after, members, ERROR) == CountIn(cases, members, ERROR) - e
      && CountIn(after, members, SKIPPED) == CountIn(cases, members, SKIPPED) + f + e
  {
    if members == [] {
    } else {
      assert members[0] in Listed(members);
      SuiteCounts(rules, cases, members[1..], done);
      CaseCounts(rules, cases[members[0]].name, cases[members[0]].children);
    }
  }

  /** The cases filtered before are exactly what a suite's own conversions fall short of. */
  lemma {:induction false} HitsShort(rules: Rules, cases: seq<TestCase>, members: seq<nat>, done: set<nat>)
    requires InArena(cases, members)
    ensures HitsIn(rules, cases, members, done, FAILURE) <= HitsIn(rules, cases, members, {}, FAILURE)
    ensures HitsIn(rules, cases, members, done, ERROR) <= HitsIn(rules, cases, members, {}, ERROR)
    ensures
      HitsIn(rules, cases, members, done, FAILURE) == HitsIn(rules, cases, members, {}, FAILURE)
      && HitsIn(rules, cases, members, done, ERROR) == HitsIn(rules, cases, members, {}, ERROR)
      <==> forall m | m in members && m in done :: CaseHits(rules, cases[m]) == 0
  {
    if members == [] {
    } else {
      HitsShort(rules, cases, members[1..], done);
      assert members == [members[0]] + members[1..];
      assert forall m :: m in members <==> m == members[0] || m in members[1..];
    }
  }

  lemma {:induction false} HitsWithinCount(rules: Rules, cases: seq<TestCase>, members: seq<nat>)
    requires InArena(cases, members)
    ensures HitsIn(rules, cases, members, {}, FAILURE) <= CountIn(cases, members, FAILURE)
    ensures HitsIn(rules, cases, members, {}, ERROR) <= CountIn(cases, members, ERROR)
  {
    if members == [] {
    } else {
      HitsWithinCount(rules, cases, members[1..]);
      CaseCounts(rules, cases[members[0]].name, cases[members[0]].children);
    }
  }

  /** Debiting no more than is there: nothing is clamped, and the three counters keep their sum. */
  lemma {:induction false} DebitedCounters(counters: map<string, int>, f: nat, e: nat)
    requires f <= Counter(counters, "failures") && e <= Counter(counters, "errors") && 0 <= Counter(counters, "skipped")
    ensures Counter(Debited(counters, f, e), "failures") == Counter(counters, "failures") - f
    ensures Counter(Debited(counters, f, e), "errors") == Counter(counters, "errors") - e
    ensures Counter(Debited(counters, f, e), "skipped") == Counter(counters, "skipped") + f + e
    ensures Debited(counters, 0, 0) == counters
  {
    assert "failures" != "errors" && "failures" != "skipped" && "errors" != "skipped";
  }

  lemma {:induction false} SuiteAfter(rules: Rules, cases: seq<TestCase>, suites: seq<Suite>, n: nat, i: nat)
    requires WellFormed(cases, suites) && n <= |suites| && i < n
    ensures SuitesAfter(rules, cases, suites, n)[i]
         == Suite(suites[i].members, Debited(suites[i].counters, SuiteHits(rules, cases, suites, i, FAILURE),
                                             SuiteHits(rules, cases, suites, i, ERROR)))
  {
    if i == n - 1 {
    } else {
      SuiteAfter(rules, cases, suites, n - 1, i);
    }
  }

  lemma {:induction false} MembersDone(suites: seq<Suite>, i: nat, n: nat)
    requires i < n <= |suites|
    ensures Listed(suites[i].members) <= CasesBefore(suites, n)
  {
    if i == n - 1 {
    } else {
      MembersDone(suites, i, n - 1);
    }
  }

  /** A suite is a true record after the run exactly when no case it converts was converted before it. */
  lemma {:induction false} ExactSuiteIff(rules: Rules, cases: seq<TestCase>, suites: seq<Suite>, i: nat)
    requires WellFormed(cases, suites) && i < |suites| && ExactSuite(cases, suites[i])
    ensures
      ExactSuite(CasesAfter(rules, cases, suites), AllSuitesAfter(rules, cases, suites)[i])
      <==> forall m | m in suites[i].members && m in CasesBefore(suites, i) :: CaseHits(rules, cases[m]) == 0
    ensures SuiteHits(rules, cases, suites, i, FAILURE) <= Counter(suites[i].counters, "failures")
    ensures SuiteHits(rules, cases, suites, i, ERROR) <= Counter(suites[i].counters, "errors")
  {
    var members := suites[i].members;
    SuiteAfter(rules, cases, suites, |suites|, i);
    MembersDone(suites, i, |suites|);
    SuiteCounts(rules, cases, members, CasesBefore(suites, |suites|));
    HitsShort(rules, cases, members, CasesBefore(suites, i));
    HitsWithinCount(rules, cases, members);
    DebitedCounters(suites[i].counters, SuiteHits(rules, cases, suites, i, FAILURE),
                    SuiteHits(rules, cases, suites, i, ERROR));
  }

  // ---------- The document ----------

  /** No case with something to convert is shared by two suites. */
  ghost predicate NoSharedHits(rules: Rules, cases: seq<TestCase>, suites: seq<Suite>)
    requires WellFormed(cases, suites)
  {
    forall i, m | 0 <= i < |suites| && m in suites[i].members && m in CasesBefore(suites, i) ::
      CaseHits(rules, cases[m]) == 0
  }

  ghost predicate UnNested(suites: seq<Suite>) {
    forall i, j | 0 <= i < j < |suites| :: Listed(suites[i].members) !! Listed(suites[j].members)
  }

  /** From exact counters, one run leaves exact counters if and only if no two suites share a case with a hit. */
  lemma {:induction false} StaysExactIff(rules: Rules, cases: seq<TestCase>, suites: seq<Suite>)
    requires WellFormed(cases, suites) && Exact(cases, suites)
    ensures Exact(CasesAfter(rules, cases, suites), AllSuitesAfter(rules, cases, suites))
       <==> NoSharedHits(rules, cases, suites)
  {
    forall i | 0 <= i < |suites|
      ensures ExactSuite(CasesAfter(rules, cases, suites), AllSuitesAfter(rules, cases, suites)[i])
         <==> forall m | m in suites[i].members && m in CasesBefore(suites, i) :: CaseHits(rules, cases[m]) == 0
    {
      ExactSuiteIff(rules, cases, suites, i);
    }
  }

  lemma {:induction false} UnNestedBefore(suites: seq<Suite>, i: nat, n: nat)
    requires UnNested(suites) && n <= i < |suites|
    ensures CasesBefore(suites, n) !! Listed(suites[i].members)
  {
    if n == 0 {
    } else {
      UnNestedBefore(suites, i, n - 1);
    }
  }

  /** In particular on un-nested suites, where moreover no counter is ever clamped. */
  lemma {:induction false} UnNestedStaysExact(rules: Rules, cases: seq<TestCase>, suites: seq<Suite>)
    requires WellFormed(cases, suites) && Exact(cases, suites) && UnNested(suites)
    ensures Exact(CasesAfter(rules, cases, suites), AllSuitesAfter(rules, cases, suites))
    ensures forall i | 0 <= i < |suites| ::
              && SuiteHits(rules, cases, suites, i, FAILURE) <= Counter(suites[i].counters, "failures")
              && SuiteHits(rules, cases, suites, i, ERROR) <= Counter(suites[i].counters, "errors")
  {
    forall i | 0 <= i < |suites|
      ensures forall m | m in suites[i].members :: m !in CasesBefore(suites, i)
    {
      UnNestedBefore(suites, i, i);
      assert forall m | m in suites[i].members :: m in Listed(suites[i].members);
    }
    StaysExactIff(rules, cases, suites);
    forall i | 0 <= i < |suites|
      ensures SuiteHits(rules, cases, suites, i, FAILURE) <= Counter(suites[i].counters, "failures")
      ensures SuiteHits(rules, cases, suites, i, ERROR) <= Counter(suites[i].counters, "errors")
    {
      ExactSuiteIff(rules, cases, suites, i);
    }
  }

  lemma {:induction false} SumUpdate(suites: seq<Suite>, i: nat, suite: Suite, key: string)
    requires i < |suites|
    ensures SumCounter(suites[i := suite], key)
         == SumCounter(suites, key) - Counter(suites[i].counters, key) + Counter(suite.counters, key)
  {
    if i > 0 {
      SumUpdate(suites[1..], i - 1, suite, key);
      assert suites[i := suite][1..] == suites[1..][i - 1 := suite];
    } else {
      assert suites[i := suite][1..] == suites[1..];
    }
  }

  /** The sums over all suites: what leaves the failures and errors arrives in the skips, and is what is returned. */
  lemma {:induction false} SumsConserved(rules: Rules, cases: seq<TestCase>, suites: seq<Suite>, n: nat)
    requires WellFormed(cases, suites) && Exact(cases, suites) && n <= |suites|
    ensures
      var after, total := SuitesAfter(rules, cases, suites, n), TotalHits(rules, cases, suites, n);
      && SumCounter(after, "skipped") == SumCounter(suites, "skipped") + total
      && SumCounter(after, "failures") + SumCounter(after, "errors")
         == SumCounter(suites, "failures") + SumCounter(suites, "errors") - total
  {
    hide Debited, HitsIn, CountIn, Processed, SumCounter, Counter, SuiteHits, InArena;
    if n == 0 {
    } else {
      SumsConserved(rules, cases, suites, n - 1);
      var before, i := SuitesAfter(rules, cases, suites, n - 1), n - 1;
      ExactSuiteIff(rules, cases, suites, i);
      var f, e := SuiteHits(rules, cases, suites, i, FAILURE), SuiteHits(rules, cases, suites, i, ERROR);
      DebitedCounters(suites[i].counters, f, e);
      var suite := Suite(suites[i].members, Debited(suites[i].counters, f, e));
      SumUpdate(before, i, suite, "skipped");
      SumUpdate(before, i, suite, "failures");
      SumUpdate(before, i, suite, "errors");
    }
  }

  /** Without conversions the suites are left alone. */
  lemma {:induction false} NothingToDo(rules: Rules, cases: seq<TestCase>, suites: seq<Suite>, n: nat)
    requires WellFormed(cases, suites) && n <= |suites| && TotalHits(rules, cases, suites, n) == 0
    ensures SuitesAfter(rules, cases, suites, n) == suites
  {
    if n == 0 {
    } else {
      NothingToDo(rules, cases, suites, n - 1);
      assert Debited(suites[n - 1].counters, 0, 0) == suites[n - 1].counters;
      assert suites[n - 1 := suites[n - 1]] == suites;
    }
  }

  /** The root's counters stay the sums, keep their total, and move by the number of conversions returned. */
  lemma {:induction false} RootStaysExact(
    rules: Rules, cases: seq<TestCase>, suites: seq<Suite>, root: map<string, int>)
    requires WellFormed(cases, suites) && Exact(cases, suites) && RootExact(root, suites)
    ensures
      var total := TotalHits(rules, cases, suites, |suites|);
      var after := RootAfter(root, AllSuitesAfter(rules, cases, suites), total);
      && RootExact(after, AllSuitesAfter(rules, cases, suites))
      && Counter(after, "skipped") == Counter(root, "skipped") + total
      && Counter(after, "failures") + Counter(after, "errors") + Counter(after, "skipped")
         == Counter(root, "failures") + Counter(root, "errors") + Counter(root, "skipped")
  {
    SumsConserved(rules, cases, suites, |suites|);
    assert "failures" in ["failures", "errors", "skipped"] && "errors" in ["failures", "errors", "skipped"]
        && "skipped" in ["failures", "errors", "skipped"];
    assert "failures" != "errors" && "failures" != "skipped" && "errors" != "skipped";
    if TotalHits(rules, cases, suites, |suites|) == 0 {
      NothingToDo(rules, cases, suites, |suites|);
    }
  }

  // ---------- Running it again ----------

  lemma {:induction false} NoHitsLeft(
    rules: Rules, cases: seq<TestCase>, members: seq<nat>, done: set<nat>, skip: set<nat>, tag: string)
    requires InArena(cases, members) && Listed(members) <= done
    ensures HitsIn(rules, Processed(rules, cases, done), members, skip, tag) == 0
  {
    if members == [] {
    } else {
      assert members[0] in Listed(members);
      assert Listed(members[1..]) <= Listed(members);
      ConvertedHasNoHits(rules, cases[members[0]].name, cases[members[0]].children, tag);
      NoHitsLeft(rules, cases, members[1..], done, skip, tag);
    }
  }

  lemma {:induction false} TotalLeft(
    rules: Rules, cases: seq<TestCase>, suites: seq<Suite>, suites': seq<Suite>, n: nat)
    requires WellFormed(cases, suites) && |suites'| == |suites| && n <= |suites|
    requires forall i | 0 <= i < |suites| :: suites'[i].members == suites[i].members
    ensures TotalHits(rules, CasesAfter(rules, cases, suites), suites', n) == 0
  {
    if n == 0 {
    } else {
      TotalLeft(rules, cases, suites, suites', n - 1);
      MembersDone(suites, n - 1, |suites|);
      var all, before := CasesBefore(suites, |suites|), CasesBefore(suites', n - 1);
      NoHitsLeft(rules, cases, suites[n - 1].members, all, before, FAILURE);
      NoHitsLeft(rules, cases, suites[n - 1].members, all, before, ERROR);
    }
  }

  lemma {:induction false} SameCasesBefore(suites: seq<Suite>, suites': seq<Suite>, n: nat)
    requires |suites'| == |suites| && n <= |suites|
    requires forall i | 0 <= i < |suites| :: suites'[i].members == suites[i].members
    ensures CasesBefore(suites', n) == CasesBefore(suites, n)
  {
    if n == 0 {
    } else {
      SameCasesBefore(suites, suites', n - 1);
    }
  }

  /** A second run converts nothing and changes nothing, nested suites or not, whatever the root is. */
  lemma {:induction false} SecondRunChangesNothing(
    rules: Rules, cases: seq<TestCase>, suites: seq<Suite>, rootIsSuite: bool)
    requires WellFormed(cases, suites)
    ensures
      var converted := TotalHits(rules, cases, suites, |suites|);
      var cases' := CasesAfter(rules, cases, suites);
      var suites' := Resummed(rootIsSuite, AllSuitesAfter(rules, cases, suites), converted);
      && TotalHits(rules, cases', suites', |suites'|) == 0
      && CasesAfter(rules, cases', suites') == cases'
      && Resummed(rootIsSuite, AllSuitesAfter(rules, cases', suites'), 0) == suites'
      && forall root :: RootAfter(root, suites', 0) == root
  {
    var converted := TotalHits(rules, cases, suites, |suites|);
    var cases' := CasesAfter(rules, cases, suites);
    var suites' := Resummed(rootIsSuite, AllSuitesAfter(rules, cases, suites), converted);
    TotalLeft(rules, cases, suites, suites', |suites|);
    NothingToDo(rules, cases', suites', |suites'|);
    SameCasesBefore(suites, suites', |suites|);
    forall m | 0 <= m < |cases|
      ensures CasesAfter(rules, cases', suites')[m] == cases'[m]
    {
      ConvertedHasNoHits(rules, cases[m].name, cases[m].children, FAILURE);
    }
  }

  // ---------- A root that is a suite ----------

  /** All suites but the first together count nothing. */
  ghost predicate OthersEmpty(suites: seq<Suite>)
    requires suites != []
  {
    forall key | key in ["failures", "errors", "skipped"] :: SumCounter(suites[1..], key) == 0
  }

  lemma {:induction false} ResummedIff(cases: seq<TestCase>, suites: seq<Suite>, converted: nat)
    requires WellFormed(cases, suites) && suites != [] && ExactSuite(cases, suites[0])
    ensures ExactSuite(cases, Resummed(true, suites, converted)[0]) <==> converted == 0 || OthersEmpty(suites)
  {
    hide CountIn;
    var root := suites[0];
    assert "failures" in ["failures", "errors", "skipped"] && "errors" in ["failures", "errors", "skipped"]
        && "skipped" in ["failures", "errors", "skipped"];
    assert "failures" != "errors" && "failures" != "skipped" && "errors" != "skipped";
    forall key
      ensures SumCounter(suites, key) == Counter(root.counters, key) + SumCounter(suites[1..], key)
    {
    }
  }

  /** Every suite's cases are below the first one. */
  ghost predicate FirstHasAll(suites: seq<Suite>)
    requires suites != []
  {
    forall i | 0 <= i < |suites| :: Listed(suites[i].members) <= Listed(suites[0].members)
  }

  lemma {:induction false} NoHitsIfDone(
    rules: Rules, cases: seq<TestCase>, members: seq<nat>, done: set<nat>, tag: string)
    requires InArena(cases, members) && Listed(members) <= done
    ensures HitsIn(rules, cases, members, done, tag) == 0
  {
    if members == [] {
    } else {
      assert members[0] in Listed(members);
      assert Listed(members[1..]) <= Listed(members);
      NoHitsIfDone(rules, cases, members[1..], done, tag);
    }
  }

  /** What the first suite has done leaves nothing to do for the others, and their counters alone. */
  lemma {:induction false} OthersUntouched(rules: Rules, cases: seq<TestCase>, suites: seq<Suite>, i: nat)
    requires WellFormed(cases, suites) && suites != [] && FirstHasAll(suites) && 0 < i < |suites|
    ensures AllSuitesAfter(rules, cases, suites)[i] == suites[i]
  {
    hide HitsIn, CountIn, Processed;
    MembersDone(suites, 0, i);
    NoHitsIfDone(rules, cases, suites[i].members, CasesBefore(suites, i), FAILURE);
    NoHitsIfDone(rules, cases, suites[i].members, CasesBefore(suites, i), ERROR);
    SuiteAfter(rules, cases, suites, |suites|, i);
    assert Debited(suites[i].counters, 0, 0) == suites[i].counters;
  }

  /**
   A root that is itself a suite, exact before, is exact after the run if and only if nothing was
   converted or the suites below it count nothing: the final re-summing adds what they count to what the
   root counts already.
   */
  lemma {:induction false} RootSuiteExactIff(rules: Rules, cases: seq<TestCase>, suites: seq<Suite>)
    requires WellFormed(cases, suites) && suites != [] && FirstHasAll(suites) && ExactSuite(cases, suites[0])
    ensures
      var converted := TotalHits(rules, cases, suites, |suites|);
      ExactSuite(CasesAfter(rules, cases, suites), Resummed(true, AllSuitesAfter(rules, cases, suites), converted)[0])
      <==> converted == 0 || OthersEmpty(suites)
  {
    hide HitsIn, CountIn, Processed, Debited, TotalHits, ExactSuite, Resummed, SumCounter;
    var cases', suites' := CasesAfter(rules, cases, suites), AllSuitesAfter(rules, cases, suites);
    ExactSuiteIff(rules, cases, suites, 0);
    assert CasesBefore(suites, 0) == {};
    assert ExactSuite(cases', suites'[0]);
    ResummedIff(cases', suites', TotalHits(rules, cases, suites, |suites|));
    forall i | 0 <= i < |suites[1..]|
      ensures suites'[1..][i] == suites[1..][i]
    {
      OthersUntouched(rules, cases, suites, i + 1);
    }
    assert suites'[1..] == suites[1..];
  }

  lemma {:induction false} HitsWithin(rules: Rules, name: string, children: seq<Child>, tag: string)
    ensures HitCount(rules, name, children, tag) <= TagCount(children, tag)
  {
    if children == [] {
    } else {
      HitsWithin(rules, name, children[1..], tag);
    }
  }

  lemma {:induction false} SomethingConverted(rules: Rules, c: TestCase, counters: map<string, int>)
    requires CaseHits(rules, c) > 0
    ensures
      var suites := [Suite([0], counters), Suite([0], counters)];
      InArena([c], [0]) && TotalHits(rules, [c], suites, 2) > 0
  {
    var suites := [Suite([0], counters), Suite([0], counters)];
    HitsOfOne(rules, c, FAILURE);
    HitsOfOne(rules, c, ERROR);
    assert CasesBefore(suites, 0) == {};
    assert SuiteHits(rules, [c], suites, 0, FAILURE) + SuiteHits(rules, [c], suites, 0, ERROR) == CaseHits(rules, c);
    assert TotalHits(rules, [c], suites, 1) > 0;
  }

  lemma CountOfOne(c: TestCase, tag: string)
    ensures CountIn([c], [0], tag) == TagCount(c.children, tag)
  {
    assert [0][1..] == [];
  }

  /** A root suite and one inside it, around one case with something to convert: the root is wrong afterwards. */
  lemma {:induction false} RootSuiteCountsTwice(rules: Rules, c: TestCase, counters: map<string, int>)
    requires CaseHits(rules, c) > 0
    requires ExactSuite([c], Suite([0], counters))
    ensures
      var suites := [Suite([0], counters), Suite([0], counters)];
      && WellFormed([c], suites) && FirstHasAll(suites) && ExactSuite([c], suites[0])
      && !ExactSuite(CasesAfter(rules, [c], suites),
                     Resummed(true, AllSuitesAfter(rules, [c], suites), TotalHits(rules, [c], suites, 2))[0])
  {
    var suites := [Suite([0], counters), Suite([0], counters)];
    RootSuiteExactIff(rules, [c], suites);
    SomethingConverted(rules, c, counters);
    HitsWithin(rules, c.name, c.children, FAILURE);
    HitsWithin(rules, c.name, c.children, ERROR);
    CountOfOne(c, FAILURE);
    CountOfOne(c, ERROR);
    assert "failures" in ["failures", "errors", "skipped"] && "errors" in ["failures", "errors", "skipped"];
    assert suites[1..] == [suites[1]] && [suites[1]][1..] == [];
    forall key
      ensures SumCounter(suites[1..], key) == Counter(counters, key)
    {
    }
  }

  lemma HitsOfOne(rules: Rules, c: TestCase, tag: string)
    ensures HitsIn(rules, [c], [0], {}, tag) == HitCount(rules, c.name, c.children, tag)
  {
    assert [0][1..] == [];
  }

  // ---------- Nested suites ----------

  /** Two suites, one inside the other, around one case with something to convert: the inner counters go stale. */
  lemma {:induction false} NestedSuiteGoesStale(rules: Rules, c: TestCase, counters: map<string, int>)
    requires CaseHits(rules, c) > 0
    requires ExactSuite([c], Suite([0], counters))
    ensures
      var suites := [Suite([0], counters), Suite([0], counters)];
      && WellFormed([c], suites) && Exact([c], suites)
      && !Exact(CasesAfter(rules, [c], suites), AllSuitesAfter(rules, [c], suites))
  {
    var suites := [Suite([0], counters), Suite([0], counters)];
    StaysExactIff(rules, [c], suites);
    assert Listed(suites[0].members) <= CasesBefore(suites, 1) by {
      MembersDone(suites, 0, 1);
    }
    assert 0 in suites[0].members && 0 in Listed(suites[0].members);
    assert 0 in suites[1].members && 0 in CasesBefore(suites, 1);
  }
}
