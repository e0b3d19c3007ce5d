/** Which failures the flake filter converts, what it puts in their place, and what happens to a suite's counters. */
module FlakeAnswers {
  import opened FlakeFilter
  import opened Options
  import opened Strings

  /** The entry's pattern matches the name, and its text stands in the message or in the body. */
  ghost predicate Fits(rules: Rules, entry: Entry, name: string, child: Child) {
    && rules.glob(name, entry.testcase)
    && ((exists k: nat :: OccursAt(child.message, entry.failureSubstring, k))
        || exists k: nat :: OccursAt(child.text, entry.failureSubstring, k))
  }

  lemma {:induction false} FitsIff(rules: Rules, entry: Entry, name: string, child: Child)
    ensures Matches(rules, entry, name, child) <==> Fits(rules, entry, name, child)
  {
    hide Contains, OccursAt;
    ContainsIff(child.message, entry.failureSubstring);
    ContainsIff(child.text, entry.failureSubstring);
  }

  /** The first entry of the list that fits. */
  ghost predicate FirstFit(rules: Rules, i: nat, name: string, child: Child) {
    && i < |rules.entries| && Fits(rules, rules.entries[i], name, child)
    && forall j | 0 <= j < i :: !Fits(rules, rules.entries[j], name, child)
  }

  lemma {:induction false} MatchFrom(rules: Rules, entries: seq<Entry>, name: string, child: Child)
    ensures FirstMatch(rules, entries, name, child) == None
       <==> forall j | 0 <= j < |entries| :: !Fits(rules, entries[j], name, child)
    ensures forall i | 0 <= i < |entries| && Fits(rules, entries[i], name, child)
                       && (forall j | 0 <= j < i :: !Fits(rules, entries[j], name, child)) ::
              FirstMatch(rules, entries, name, child) == Some(entries[i])
  {
    if entries == [] {
    } else {
      hide Matches, Fits;
      FitsIff(rules, entries[0], name, child);
      MatchFrom(rules, entries[1..], name, child);
      assert forall j | 0 < j < |entries| :: entries[j] == entries[1..][j - 1];
      if FirstMatch(rules, entries, name, child) == None {
        forall j | 0 <= j < |entries|
          ensures !Fits(rules, entries[j], name, child)
        {
          assert j > 0 ==> !Fits(rules, entries[1..][j - 1], name, child);
        }
      }
      forall i | 0 < i < |entries| && Fits(rules, entries[i], name, child)
                 && forall j | 0 <= j < i :: !Fits(rules, entries[j], name, child)
        ensures FirstMatch(rules, entries, name, child) == Some(entries[i])
      {
        forall j | 0 <= j < i - 1
          ensures !Fits(rules, entries[1..][j], name, child)
        {
          assert entries[1..][j] == entries[j + 1];
        }
        assert Fits(rules, entries[1..][i - 1], name, child);
        assert !Fits(rules, entries[0], name, child);
      }
    }
  }

  ghost predicate Blank(c: char) {
    c == ' ' || c == '\t' || c == '\n' || c == '\r'
  }

  /** The slice of a text that is left when the white space at its ends is gone. */
  ghost predicate Trims(s: string, i: nat, j: nat) {
    && i <= j <= |s|
    && (forall k | 0 <= k < i :: Blank(s[k]))
    && (forall k | j <= k < |s| :: Blank(s[k]))
    && (i < j ==> !Blank(s[i]) && !Blank(s[j - 1]))
  }

  ghost predicate TrimmedTo(s: string, core: string) {
    exists i: nat, j: nat :: Trims(s, i, j) && core == s[i..j]
  }

  lemma TrimsFront(s: string, a: nat, b: nat)
    requires s != "" && Blank(s[0]) && Trims(s[1..], a, b)
    ensures Trims(s, a + 1, b + 1) && s[1..][a..b] == s[a + 1..b + 1]
  {
    hide Blank;
    assert forall k | 0 < k < |s| :: s[k] == s[1..][k - 1];
  }

  lemma TrimsBack(s: string, i: nat, j: nat)
    requires s != "" && Blank(s[|s| - 1]) && Trims(s[..|s| - 1], i, j)
    ensures Trims(s, i, j) && s[..|s| - 1][i..j] == s[i..j]
  {
    hide Blank;
    assert forall k | 0 <= k < |s| - 1 :: s[k] == s[..|s| - 1][k];
  }

  lemma {:induction false} StripTrims(s: string) returns (i: nat, j: nat)
    ensures Trims(s, i, j) && StripSpace(s) == s[i..j]
    decreases |s|
  {
    if s != "" && s[0] in " \t\n\r" {
      var a, b := StripTrims(s[1..]);
      i, j := a + 1, b + 1;
      TrimsFront(s, a, b);
    } else if s != "" && s[|s| - 1] in " \t\n\r" {
      i, j := StripTrims(s[..|s| - 1]);
      TrimsBack(s, i, j);
    } else {
      i, j := 0, |s|;
    }
  }

  /** The skip that stands for a conversion under an entry. */
  ghost predicate SkipsFor(skip: Child, e: Entry) {
    && skip.tag == "skipped" && skip.kind == "schemathesis-known-flake"
    && skip.message == "Known false positive (" + e.lmcId + "); see schemathesis-known-flakes.yaml"
    && exists r :: TrimmedTo(e.rationale, r)
         && skip.text == "rationale: " + r + "\nlmc_id: " + e.lmcId + "\napproved_by: " + e.approvedBy
                         + "\napproved_at: " + e.approvedAt
  }

  lemma {:induction false} NoFirstNone(rules: Rules, name: string, child: Child, n: nat)
    requires n <= |rules.entries| && forall i: nat :: !FirstFit(rules, i, name, child)
    ensures forall j | 0 <= j < n :: !Fits(rules, rules.entries[j], name, child)
  {
    hide Fits;
    if n == 0 {
    } else {
      NoFirstNone(rules, name, child, n - 1);
      assert !FirstFit(rules, n - 1, name, child);
    }
  }

  /**
   A failure or an error for which some entry fits becomes a skip for the first such entry; every other
   child stays as it is.
   */
  lemma {:induction false} ConvertedIff(rules: Rules, c: TestCase, k: nat)
    requires k < |c.children|
    ensures |ConvertCase(rules, c).children| == |c.children| && ConvertCase(rules, c).name == c.name
    ensures
      var was, now := c.children[k], ConvertCase(rules, c).children[k];
      && (forall i: nat | (was.tag == "failure" || was.tag == "error") && FirstFit(rules, i, c.name, was) ::
            SkipsFor(now, rules.entries[i]))
      && ((was.tag != "failure" && was.tag != "error") || (forall i: nat :: !FirstFit(rules, i, c.name, was)) ==>
            now == was)
  {
    hide Fits, Trims, StripSpace;
    var was := c.children[k];
    MatchFrom(rules, rules.entries, c.name, was);
    forall e: Entry
      ensures SkipsFor(SkipFor(e), e)
    {
      var i, j := StripTrims(e.rationale);
    }
    if forall i: nat :: !FirstFit(rules, i, c.name, was) {
      NoFirstNone(rules, c.name, was, |rules.entries|);
    }
  }

  /** The number a suite gives for a counter; zero if it gives none. */
  function Given(counters: map<string, int>, key: string): int {
    if key in counters then counters[key] else 0
  }

  /** Conversions come off the counters of failures and errors, down to zero, and are added to the skips. */
  lemma {:induction false} CountersAre(counters: map<string, int>, failures: nat, errors: nat)
    ensures
      var now := Debited(counters, failures, errors);
      && (failures > 0 ==>
            "failures" in now && now["failures"] == if Given(counters, "failures") >= failures
                                                    then Given(counters, "failures") - failures else 0)
      && (errors > 0 ==>
            "errors" in now && now["errors"] == if Given(counters, "errors") >= errors
                                                then Given(counters, "errors") - errors else 0)
      && (failures + errors > 0 ==>
            "skipped" in now && now["skipped"] == if Given(counters, "skipped") + failures + errors >= 0
                                                  then Given(counters, "skipped") + failures + errors else 0)
      && forall key | || (key == "failures" && failures == 0)
                      || (key == "errors" && errors == 0)
                      || (key == "skipped" && failures + errors == 0)
                      || (key != "failures" && key != "errors" && key != "skipped") ::
           (key in now <==> key in counters) && Given(now, key) == Given(counters, key)
  {
    assert "failures" != "errors" && "failures" != "skipped" && "errors" != "skipped";
  }
}
