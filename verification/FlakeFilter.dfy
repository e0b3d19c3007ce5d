/**
 The flake filter: failures and errors of known flakes become skips, in place, and the counters of
 the suites and of the root follow.

 A document is an arena of test cases.  A suite lists the cases its iteration visits, in order; a
 suite nested in another one shares its cases with it, so "un-nested" means that no two suites share
 a case.  Glob matching is a parameter.
 */
module FlakeFilter {
  import opened Options
  import opened Strings

  datatype Child = Child(tag: string, message: string, text: string, kind: string)

  datatype TestCase = TestCase(name: string, children: seq<Child>)

  datatype Suite = Suite(members: seq<nat>, counters: map<string, int>)

  datatype Entry = Entry(
    testcase: string, failureSubstring: string, rationale: string, lmcId: string, approvedBy: string, approvedAt: string)

  datatype Rules = Rules(glob: (string, string) -> bool, entries: seq<Entry>)

  const FAILURE := "failure"
  const ERROR := "error"
  const SKIPPED := "skipped"

  // ---------- Which child is converted, and into what ----------

  predicate Matches(rules: Rules, entry: Entry, name: string, child: Child) {
    rules.glob(name, entry.testcase)
    && (Contains(child.message, entry.failureSubstring) || Contains(child.text, entry.failureSubstring))
  }

  function FirstMatch(rules: Rules, entries: seq<Entry>, name: string, child: Child): Option<Entry> {
    if entries == [] then None
    else if Matches(rules, entries[0], name, child) then Some(entries[0])
    else FirstMatch(rules, entries[1..], name, child)
  }

  /** The entry a child is converted under, if it is a failure or an error and some entry matches. */
  function HitOf(rules: Rules, name: string, child: Child): Option<Entry> {
    if child.tag != FAILURE && child.tag != ERROR then None else FirstMatch(rules, rules.entries, name, child)
  }

  function StripSpace(s: string): string {
    if s != "" && s[0] in " \t\n\r" then StripSpace(s[1..])
    else if s != "" && s[|s| - 1] in " \t\n\r" then StripSpace(s[..|s| - 1])
    else s
  }

  function SkipFor(e: Entry): Child {
    Child(
      SKIPPED,
      "Known false positive (" + e.lmcId + "); see schemathesis-known-flakes.yaml",
      "rationale: " + StripSpace(e.rationale) + "\nlmc_id: " + e.lmcId + "\napproved_by: " + e.approvedBy
        + "\napproved_at: " + e.approvedAt,
      "schemathesis-known-flake")
  }

  function Convert(rules: Rules, name: string, child: Child): Child {
    match HitOf(rules, name, child)
    case None => child
    case Some(e) => SkipFor(e)
  }

  function ConvertAll(rules: Rules, name: string, children: seq<Child>): (r: seq<Child>)
    ensures |r| == |children|
    ensures forall i | 0 <= i < |children| :: r[i] == Convert(rules, name, children[i])
  {
    if children == [] then [] else [Convert(rules, name, children[0])] + ConvertAll(rules, name, children[1..])
  }

  function ConvertCase(rules: Rules, c: TestCase): TestCase {
    TestCase(c.name, ConvertAll(rules, c.name, c.children))
  }

  // ---------- Counting ----------

  function TagCount(children: seq<Child>, tag: string): nat {
    if children == [] then 0 else (if children[0].tag == tag then 1 else 0) + TagCount(children[1..], tag)
  }

  /** How many children with this tag are converted. */
  function HitCount(rules: Rules, name: string, children: seq<Child>, tag: string): nat {
    if children == [] then 0
    else (if children[0].tag == tag && HitOf(rules, name, children[0]).Some? then 1 else 0)
         + HitCount(rules, name, children[1..], tag)
  }

  ghost predicate InArena(cases: seq<TestCase>, members: seq<nat>) {
    forall k | 0 <= k < |members| :: members[k] < |cases|
  }

  /** Elements with this tag in the cases of a suite. */
  function CountIn(cases: seq<TestCase>, members: seq<nat>, tag: string): nat
    requires InArena(cases, members)
  {
    if members == [] then 0
    else TagCount(cases[members[0]].children, tag) + CountIn(cases, members[1..], tag)
  }

  /** Conversions in the cases of a suite, not counting the cases in `done`. */
  function HitsIn(rules: Rules, cases: seq<TestCase>, members: seq<nat>, done: set<nat>, tag: string): nat
    requires InArena(cases, members)
  {
    if members == [] then 0
    else (if members[0] in done then 0 else HitCount(rules, cases[members[0]].name, cases[members[0]].children, tag))
         + HitsIn(rules, cases, members[1..], done, tag)
  }

  /** The arena with the cases in `done` converted. */
  function Processed(rules: Rules, cases: seq<TestCase>, done: set<nat>): (r: seq<TestCase>)
    ensures |r| == |cases|
    ensures forall i | 0 <= i < |cases| :: r[i] == if i in done then ConvertCase(rules, cases[i]) else cases[i]
  {
    seq(|cases|, i requires 0 <= i < |cases| => if i in done then ConvertCase(rules, cases[i]) else cases[i])
  }

  function Listed(members: seq<nat>): set<nat> {
    set m | m in members
  }

  /** The cases of the first n suites. */
  function CasesBefore(suites: seq<Suite>, n: nat): set<nat>
    requires n <= |suites|
  {
    if n == 0 then {} else CasesBefore(suites, n - 1) + Listed(suites[n - 1].members)
  }

  function Counter(counters: map<string, int>, key: string): int {
    if key in counters then counters[key] else 0
  }

  function Adjusted(counters: map<string, int>, key: string, delta: int): map<string, int> {
    var sum := Counter(counters, key) + delta;
    counters[key := if sum < 0 then 0 else sum]
  }

  /** The counters of a suite after so many of its failures and errors were converted. */
  function Debited(counters: map<string, int>, failures: int, errors: int): map<string, int> {
    var one := if failures > 0 then Adjusted(counters, "failures", -failures) else counters;
    var two := if errors > 0 then Adjusted(one, "errors", -errors) else one;
    if failures + errors > 0 then Adjusted(two, "skipped", failures + errors) else two
  }

  function SumCounter(suites: seq<Suite>, key: string): int {
    if suites == [] then 0 else Counter(suites[0].counters, key) + SumCounter(suites[1..], key)
  }

  ghost function SuiteHits(rules: Rules, cases: seq<TestCase>, suites: seq<Suite>, i: nat, tag: string): nat
    requires i < |suites| && InArena(cases, suites[i].members)
  {
    HitsIn(rules, cases, suites[i].members, CasesBefore(suites, i), tag)
  }

  ghost function TotalHits(rules: Rules, cases: seq<TestCase>, suites: seq<Suite>, n: nat): nat
    requires n <= |suites| && forall i | 0 <= i < n :: InArena(cases, suites[i].members)
  {
    if n == 0 then 0
    else TotalHits(rules, cases, suites, n - 1)
         + SuiteHits(rules, cases, suites, n - 1, FAILURE) + SuiteHits(rules, cases, suites, n - 1, ERROR)
  }

  // ---------- Step lemmas for the loops ----------

  lemma {:induction false} HitsStep(
    rules: Rules, cases: seq<TestCase>, members: seq<nat>, done: set<nat>, k: nat, tag: string)
    requires k < |members| && InArena(cases, members)
    ensures HitsIn(rules, cases, members[..k + 1], done, tag)
         == HitsIn(rules, cases, members[..k], done, tag)
            + if members[k] in done then 0
              else HitCount(rules, cases[members[k]].name, cases[members[k]].children, tag)
    decreases |members|
  {
    if k == 0 {
      assert members[..1][1..] == [];
    } else {
      assert members[..k + 1][1..] == members[1..][..k] && members[..k][1..] == members[1..][..k - 1];
      HitsStep(rules, cases, members[1..], done, k - 1, tag);
    }
  }

  lemma {:induction false} HitCountStep(rules: Rules, name: string, children: seq<Child>, k: nat, tag: string)
    requires k < |children|
    ensures HitCount(rules, name, children[..k + 1], tag)
         == HitCount(rules, name, children[..k], tag)
            + if children[k].tag == tag && HitOf(rules, name, children[k]).Some? then 1 else 0
  {
    if k == 0 {
      assert children[..1][1..] == [];
    } else {
      assert children[..k + 1][1..] == children[1..][..k] && children[..k][1..] == children[1..][..k - 1];
      HitCountStep(rules, name, children[1..], k - 1, tag);
    }
  }

  lemma {:induction false} ConvertedHasNoHits(rules: Rules, name: string, children: seq<Child>, tag: string)
    ensures HitCount(rules, name, ConvertAll(rules, name, children), tag) == 0
    ensures ConvertAll(rules, name, ConvertAll(rules, name, children)) == ConvertAll(rules, name, children)
  {
    if children == [] {
    } else {
      ConvertedHasNoHits(rules, name, children[1..], tag);
      var converted := ConvertAll(rules, name, children);
      assert converted[1..] == ConvertAll(rules, name, children[1..]);
    }
  }

  // ---------- More step lemmas ----------

  /** The children with the first b converted. */
  function HalfDone(rules: Rules, name: string, children: seq<Child>, b: nat): (r: seq<Child>)
    ensures |r| == |children|
    ensures forall j | 0 <= j < |children| :: r[j] == if j < b then Convert(rules, name, children[j]) else children[j]
  {
    seq(|children|, j requires 0 <= j < |children| => if j < b then Convert(rules, name, children[j]) else children[j])
  }

  /** Up to the first child to convert, nothing changes. */
  lemma {:induction false} FirstStep(rules: Rules, name: string, children: seq<Child>) returns (next: nat)
    ensures next <= |children| && (next == |children| || HitOf(rules, name, children[next]).Some?)
    ensures HitList(rules, name, children, next) == [] && HalfDone(rules, name, children, next) == children
    ensures forall tag :: HitCount(rules, name, children[..next], tag) == 0
    ensures FAILURE != ERROR
  {
    next := NextHit(rules, name, children, 0);
    assert children[..0] == [];
  }

  /** From one child to convert to the next. */
  lemma {:induction false} HitStep(rules: Rules, name: string, children: seq<Child>, at: nat) returns (next: nat)
    requires at < |children| && HitOf(rules, name, children[at]).Some?
    ensures
      var entry, half := HitOf(rules, name, children[at]).value, HalfDone(rules, name, children, at);
      && at < next <= |children| && (next == |children| || HitOf(rules, name, children[next]).Some?)
      && HitList(rules, name, children, next) == HitList(rules, name, children, at) + [(at, entry)]
      && HalfDone(rules, name, children, next) == half[..at] + [SkipFor(entry)] + half[at + 1..]
    ensures forall tag :: HitCount(rules, name, children[..next], tag)
                       == HitCount(rules, name, children[..at], tag) + if children[at].tag == tag then 1 else 0
    ensures children[at].tag == FAILURE || children[at].tag == ERROR
  {
    next := NextHit(rules, name, children, at + 1);
    forall tag
      ensures HitCount(rules, name, children[..next], tag)
           == HitCount(rules, name, children[..at], tag) + if children[at].tag == tag then 1 else 0
    {
      HitCountStep(rules, name, children, at, tag);
    }
    HalfStep(rules, name, children, at, next);
  }

  lemma {:induction false} HalfStep(rules: Rules, name: string, children: seq<Child>, at: nat, next: nat)
    requires at < next <= |children| && HitOf(rules, name, children[at]).Some?
    requires forall j | at < j < next :: HitOf(rules, name, children[j]).None?
    ensures
      var entry, half := HitOf(rules, name, children[at]).value, HalfDone(rules, name, children, at);
      HalfDone(rules, name, children, next) == half[..at] + [SkipFor(entry)] + half[at + 1..]
  {
  }

  lemma {:induction false} AllDone(rules: Rules, name: string, children: seq<Child>, bound: nat)
    requires bound <= |children| && (bound == |children| || HitOf(rules, name, children[bound]).Some?)
    requires HitList(rules, name, children, bound) == HitList(rules, name, children, |children|)
    ensures bound == |children| && children[..bound] == children
    ensures HalfDone(rules, name, children, bound) == ConvertAll(rules, name, children)
  {
    HitListPrefix(rules, name, children, bound, |children|);
  }

  ghost predicate NoRepeats(members: seq<nat>) {
    forall j, k | 0 <= j < k < |members| :: members[j] != members[k]
  }

  /** The suites after the first n have been filtered. */
  ghost function SuitesAfter(rules: Rules, cases: seq<TestCase>, suites: seq<Suite>, n: nat): (r: seq<Suite>)
    requires n <= |suites| && forall i | 0 <= i < |suites| :: InArena(cases, suites[i].members)
    ensures |r| == |suites| && forall i | n <= i < |suites| :: r[i] == suites[i]
    ensures forall i | 0 <= i < |suites| :: r[i].members == suites[i].members
  {
    if n == 0 then suites
    else
      var suite := suites[n - 1];
      SuitesAfter(rules, cases, suites, n - 1)[n - 1 :=
        Suite(suite.members, Debited(suite.counters, SuiteHits(rules, cases, suites, n - 1, FAILURE),
                                     SuiteHits(rules, cases, suites, n - 1, ERROR)))]
  }

  lemma {:induction false} NoSuites(rules: Rules, cases: seq<TestCase>, suites: seq<Suite>)
    requires forall i | 0 <= i < |suites| :: InArena(cases, suites[i].members)
    ensures CasesBefore(suites, 0) == {} && Processed(rules, cases, {}) == cases
    ensures SuitesAfter(rules, cases, suites, 0) == suites && TotalHits(rules, cases, suites, 0) == 0
  {
  }

  lemma {:induction false} SuiteStep(rules: Rules, cases: seq<TestCase>, suites: seq<Suite>, i: nat)
    requires i < |suites| && forall j | 0 <= j < |suites| :: InArena(cases, suites[j].members)
    ensures
      var suite, done := suites[i], CasesBefore(suites, i);
      var f, e := HitsIn(rules, cases, suite.members, done, FAILURE), HitsIn(rules, cases, suite.members, done, ERROR);
      && CasesBefore(suites, i + 1) == done + Listed(suite.members)
      && SuitesAfter(rules, cases, suites, i + 1)
         == SuitesAfter(rules, cases, suites, i)[i := Suite(suite.members, Debited(suite.counters, f, e))]
      && TotalHits(rules, cases, suites, i + 1) == TotalHits(rules, cases, suites, i) + f + e
  {
  }

  function RootAfter(root: map<string, int>, suites: seq<Suite>, converted: nat): map<string, int> {
    if converted == 0 then root
    else root["failures" := SumCounter(suites, "failures")]["errors" := SumCounter(suites, "errors")]
             ["skipped" := SumCounter(suites, "skipped")]
  }

  /** The suites in the end: a root that is a suite itself gets the sums over all suites, itself included. */
  function Resummed(rootIsSuite: bool, suites: seq<Suite>, converted: nat): (r: seq<Suite>)
    ensures |r| == |suites| && forall i | 0 <= i < |suites| :: r[i].members == suites[i].members
    ensures forall i | 1 <= i < |suites| :: r[i] == suites[i]
  {
    if !rootIsSuite || suites == [] then suites
    else suites[0 := Suite(suites[0].members, RootAfter(suites[0].counters, suites, converted))]
  }

  /** Visiting one more case: it is converted if it was not before, and only then does it count. */
  lemma {:induction false} MemberStep(rules: Rules, start: seq<TestCase>, members: seq<nat>, done: set<nat>, k: nat)
    requires k < |members| && InArena(start, members) && NoRepeats(members)
    ensures
      var before, m := Processed(rules, start, done + Listed(members[..k])), members[k];
      && before[m := ConvertCase(rules, before[m])] == Processed(rules, start, done + Listed(members[..k + 1]))
      && (forall tag | tag == FAILURE || tag == ERROR ::
            HitsIn(rules, start, members[..k + 1], done, tag)
              == HitsIn(rules, start, members[..k], done, tag)
                 + HitCount(rules, before[m].name, before[m].children, tag))
  {
    var m := members[k];
    assert m !in members[..k];
    assert members[..k + 1] == members[..k] + [m];
    assert Listed(members[..k + 1]) == Listed(members[..k]) + {m};
    HitsStep(rules, start, members, done, k, FAILURE);
    HitsStep(rules, start, members, done, k, ERROR);
    ConvertedHasNoHits(rules, start[m].name, start[m].children, FAILURE);
    ConvertedHasNoHits(rules, start[m].name, start[m].children, ERROR);
  }

  /** The positions of the children to convert among the first n, with the entry each is converted under. */
  function HitList(rules: Rules, name: string, children: seq<Child>, n: nat): seq<(nat, Entry)>
    requires n <= |children|
  {
    if n == 0 then []
    else
      var hit := HitOf(rules, name, children[n - 1]);
      HitList(rules, name, children, n - 1) + if hit.Some? then [(n - 1, hit.value)] else []
  }

  /** The hits among the first n begin with those among the first b, and go on with b itself if it is one. */
  lemma {:induction false} HitListPrefix(rules: Rules, name: string, children: seq<Child>, b: nat, n: nat)
    requires b <= n <= |children|
    ensures HitList(rules, name, children, b) <= HitList(rules, name, children, n)
    ensures b < n && HitOf(rules, name, children[b]).Some? ==>
              && |HitList(rules, name, children, b)| < |HitList(rules, name, children, n)|
              && HitList(rules, name, children, n)[|HitList(rules, name, children, b)|]
                 == (b, HitOf(rules, name, children[b]).value)
    decreases n
  {
    if b < n {
      HitListPrefix(rules, name, children, b, n - 1);
    }
  }

  /** The first child to convert from position a on. */
  ghost function NextHit(rules: Rules, name: string, children: seq<Child>, a: nat): (b: nat)
    requires a <= |children|
    ensures a <= b <= |children|
    ensures b == |children| || HitOf(rules, name, children[b]).Some?
    ensures forall j | a <= j < b :: HitOf(rules, name, children[j]).None?
    ensures HitList(rules, name, children, b) == HitList(rules, name, children, a)
    ensures forall tag :: HitCount(rules, name, children[..b], tag) == HitCount(rules, name, children[..a], tag)
    decreases |children| - a
  {
    if a == |children| || HitOf(rules, name, children[a]).Some? then a
    else
      assert forall tag :: HitCount(rules, name, children[..a + 1], tag) == HitCount(rules, name, children[..a], tag) by {
        forall tag ensures HitCount(rules, name, children[..a + 1], tag) == HitCount(rules, name, children[..a], tag) {
          HitCountStep(rules, name, children, a, tag);
        }
      }
      NextHit(rules, name, children, a + 1)
  }

  // ---------- The filter ----------

  class Document {
    var cases: seq<TestCase>
    var suites: seq<Suite>
    var root: map<string, int>
    var rootIsSuite: bool   // then the first suite is the root, and its counters are the root's

    /** A suite's iteration visits each of its cases once. */
    ghost predicate Valid()
      reads this
    {
      && (rootIsSuite ==> suites != [])
      && forall i | 0 <= i < |suites| :: InArena(cases, suites[i].members) && NoRepeats(suites[i].members)
    }

    method FindEntry(rules: Rules, name: string, child: Child) returns (hit: Option<Entry>)
      ensures hit == FirstMatch(rules, rules.entries, name, child)
    {
      for i := 0 to |rules.entries|
        invariant FirstMatch(rules, rules.entries, name, child) == FirstMatch(rules, rules.entries[i..], name, child)
      {
        if Matches(rules, rules.entries[i], name, child) {
          return Some(rules.entries[i]);
        }
        assert rules.entries[i..][1..] == rules.entries[i + 1..];
      }
      return None;
    }

    method CollectReplacements(rules: Rules, c: TestCase) returns (replace: seq<(nat, Entry)>)
      ensures replace == HitList(rules, c.name, c.children, |c.children|)
    {
      replace := [];
      for k := 0 to |c.children|
        invariant replace == HitList(rules, c.name, c.children, k)
      {
        if c.children[k].tag != FAILURE && c.children[k].tag != ERROR {
          continue;
        }
        var hit := FindEntry(rules, c.name, c.children[k]);
        if hit.Some? {
          replace := replace + [(k, hit.value)];
        }
      }
    }

    /** Each child to replace is removed and its skip is put in its place. */
    method ReplaceChildren(rules: Rules, name: string, children: seq<Child>, replace: seq<(nat, Entry)>)
      returns (now: seq<Child>, failures: nat, errors: nat)
      requires replace == HitList(rules, name, children, |children|)
      ensures now == ConvertAll(rules, name, children)
      ensures failures == HitCount(rules, name, children, FAILURE)
      ensures errors == HitCount(rules, name, children, ERROR)
    {
      hide *;
      now, failures, errors := children, 0, 0;
      ghost var bound: nat := FirstStep(rules, name, children);
      for r := 0 to |replace|
        invariant bound <= |children| && (bound == |children| || HitOf(rules, name, children[bound]).Some?)
        invariant HitList(rules, name, children, bound) == replace[..r]
        invariant now == HalfDone(rules, name, children, bound)
        invariant failures == HitCount(rules, name, children[..bound], FAILURE)
        invariant errors == HitCount(rules, name, children[..bound], ERROR)
      {
        HitListPrefix(rules, name, children, bound, |children|);
        var at, entry := replace[r].0, replace[r].1;
        assert |replace[..r]| == r && at == bound;
        assert replace[..r] + [replace[r]] == replace[..r + 1];
        bound := HitStep(rules, name, children, at);
        ghost var half := now;
        var tag := now[at].tag;
        now := now[..at] + now[at + 1..];
        now := now[..at] + [SkipFor(entry)] + now[at..];
        assert now == half[..at] + [SkipFor(entry)] + half[at + 1..];
        if tag == FAILURE {
          failures := failures + 1;
        } else {
          errors := errors + 1;
        }
      }
      AllDone(rules, name, children, bound);
    }

    method FilterCase(rules: Rules, m: nat) returns (failures: nat, errors: nat)
      requires m < |cases|
      modifies this`cases
      ensures cases == old(cases)[m := ConvertCase(rules, old(cases)[m])]
      ensures failures == HitCount(rules, old(cases)[m].name, old(cases)[m].children, FAILURE)
      ensures errors == HitCount(rules, old(cases)[m].name, old(cases)[m].children, ERROR)
    {
      var c := cases[m];
      var replace := CollectReplacements(rules, c);
      var now, f, e := ReplaceChildren(rules, c.name, c.children, replace);
      cases := cases[m := TestCase(c.name, now)];
      return f, e;
    }

    /** The cases of one suite; those in `done` have been filtered before, as part of an enclosing suite. */
    method FilterCasesOf(rules: Rules, members: seq<nat>, ghost start: seq<TestCase>, ghost done: set<nat>)
      returns (failures: nat, errors: nat)
      requires InArena(cases, members) && NoRepeats(members)
      requires |start| == |cases| && cases == Processed(rules, start, done)
      modifies this`cases
      ensures |cases| == |start|
      ensures cases == Processed(rules, start, done + Listed(members))
      ensures failures == HitsIn(rules, start, members, done, FAILURE)
      ensures errors == HitsIn(rules, start, members, done, ERROR)
    {
      failures, errors := 0, 0;
      assert Listed([]) == {};
      for k := 0 to |members|
        invariant |cases| == |start|
        invariant cases == Processed(rules, start, done + Listed(members[..k]))
        invariant failures == HitsIn(rules, start, members[..k], done, FAILURE)
        invariant errors == HitsIn(rules, start, members[..k], done, ERROR)
      {
        var m := members[k];
        MemberStep(rules, start, members, done, k);
        var f, e := FilterCase(rules, m);
        failures, errors := failures + f, errors + e;
      }
      assert members[..|members|] == members;
    }

    /** One suite: its cases, then its counters. */
    method FilterSuite(rules: Rules, i: nat, ghost start: seq<TestCase>, ghost done: set<nat>) returns (converted: nat)
      requires i < |suites| && InArena(cases, suites[i].members) && NoRepeats(suites[i].members)
      requires |start| == |cases| && cases == Processed(rules, start, done)
      modifies this`cases, this`suites
      ensures |cases| == |start| && cases == Processed(rules, start, done + Listed(old(suites)[i].members))
      ensures
        var suite := old(suites)[i];
        var f, e := HitsIn(rules, start, suite.members, done, FAILURE), HitsIn(rules, start, suite.members, done, ERROR);
        && suites == old(suites)[i := Suite(suite.members, Debited(suite.counters, f, e))]
        && converted == f + e
    {
      var failures, errors := FilterCasesOf(rules, suites[i].members, start, done);
      var counters := AdjustCounters(suites[i].counters, failures, errors);
      suites := suites[i := Suite(suites[i].members, counters)];
      return failures + errors;
    }

    method AdjustCounters(was: map<string, int>, failures: int, errors: int) returns (counters: map<string, int>)
      ensures counters == Debited(was, failures, errors)
    {
      counters := was;
      if failures > 0 {
        counters := Adjusted(counters, "failures", -failures);
      }
      if errors > 0 {
        counters := Adjusted(counters, "errors", -errors);
      }
      if failures + errors > 0 {
        counters := Adjusted(counters, "skipped", failures + errors);
      }
    }

    /** The whole document; the number of conversions is returned. */
    method FilterXml(rules: Rules) returns (converted: nat)
      requires Valid()
      modifies this
      ensures Valid()
      ensures cases == Processed(rules, old(cases), CasesBefore(old(suites), |old(suites)|))
      ensures converted == TotalHits(rules, old(cases), old(suites), |old(suites)|)
      ensures rootIsSuite == old(rootIsSuite)
      ensures
        var filtered := SuitesAfter(rules, old(cases), old(suites), |old(suites)|);
        && suites == Resummed(rootIsSuite, filtered, converted)
        && root == if rootIsSuite then old(root) else RootAfter(old(root), filtered, converted)
    {
      hide HitsIn, Debited, SumCounter, SuitesAfter, TotalHits, CasesBefore, Processed, SuiteHits, Listed;
      converted := 0;
      ghost var start, listed := cases, suites;
      NoSuites(rules, start, listed);
      for i := 0 to |suites|
        invariant Valid() && |cases| == |start| && |suites| == |listed|
        invariant root == old(root) && rootIsSuite == old(rootIsSuite)
        invariant cases == Processed(rules, start, CasesBefore(listed, i))
        invariant suites == SuitesAfter(rules, start, listed, i)
        invariant converted == TotalHits(rules, start, listed, i)
      {
        SuiteStep(rules, start, listed, i);
        var n := FilterSuite(rules, i, start, CasesBefore(listed, i));
        converted := converted + n;
      }
      if converted > 0 {
        var failures, errors := SumCounter(suites, "failures"), SumCounter(suites, "errors");
        var skipped := SumCounter(suites, "skipped");
        var counters := if rootIsSuite then suites[0].counters else root;
        counters := counters["failures" := failures]["errors" := errors]["skipped" := skipped];
        if rootIsSuite {
          suites := suites[0 := Suite(suites[0].members, counters)];
        } else {
          root := counters;
        }
      }
    }
  }
}
