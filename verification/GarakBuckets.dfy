/**
 The garak report: probe records folded into one bucket per probe, and the buckets turned into test
 cases.  Stripping and upper-casing text is a parameter, and JSON values come in already read.
 */
module GarakBuckets {
  import opened Options
  import opened Sorting

  /** The severities in rising order. */
  const SEVERITIES: seq<string> := ["", "INFO", "UNKNOWN", "LOW", "MEDIUM", "HIGH", "CRITICAL"]

  /** Python's str.strip and str.upper. */
  datatype Text = Text(strip: string -> string, upper: string -> string) {
    function Norm(s: string): string { upper(strip(s)) }

    /** Normalising is idempotent and leaves the known severities alone. */
    ghost predicate Lawful() {
      && (forall s :: Norm(Norm(s)) == Norm(s))
      && (forall k | 0 <= k < |SEVERITIES| :: Norm(SEVERITIES[k]) == SEVERITIES[k])
    }
  }

  /** A missing text is "", a boolean score is 0 or 1, and a score that is no number is None. */
  datatype Record = Record(
    entryType: string, probe: string, plugin: string, passed: Option<bool>, score: Option<real>,
    severity: string, prompt: string)

  datatype Bucket = Bucket(probe: string, attempts: nat, hits: nat, severity: string, samples: seq<string>)

  datatype Verdict = Clean | Failure | Skipped

  datatype Case = Case(
    name: string, className: string, attempts: nat, hits: nat, verdict: Verdict, severity: string, samples: seq<string>)

  datatype Suite = Suite(name: string, tests: nat, failures: nat, errors: nat, skipped: nat, cases: seq<Case>)

  const FAIL_SEVERITIES: set<string> := {"CRITICAL", "HIGH"}

  const COUNTED: set<string> := {"attempt", "eval", ""}

  const MAX_SAMPLES := 3

  const SAMPLE_LENGTH := 200

  const NO_RECORDS := Case("no-records", "garak", 0, 0, Skipped, "", [])

  /** The place in the order; a text that is not there ranks lowest. */
  function RankOf(severity: string): (k: nat)
    ensures k < |SEVERITIES|
    ensures severity in SEVERITIES ==> SEVERITIES[k] == severity
    ensures severity !in SEVERITIES ==> k == 0
  {
    if severity == "CRITICAL" then 6
    else if severity == "HIGH" then 5
    else if severity == "MEDIUM" then 4
    else if severity == "LOW" then 3
    else if severity == "UNKNOWN" then 2
    else if severity == "INFO" then 1
    else 0
  }

  function Rank(text: Text, severity: string): nat { RankOf(text.Norm(severity)) }

  // ---------- One record ----------

  function ProbeOf(text: Text, r: Record): string {
    text.strip(if r.probe != "" then r.probe else r.plugin)
  }

  predicate Counts(text: Text, r: Record) {
    r.entryType in COUNTED && ProbeOf(text, r) != ""
  }

  /** The detector fired. */
  predicate Fired(r: Record) {
    r.passed == Some(false) || (r.score.Some? && r.score.value >= 0.5)
  }

  predicate AttemptAt(text: Text, probe: string, r: Record) {
    Counts(text, r) && ProbeOf(text, r) == probe
  }

  predicate HitAt(text: Text, probe: string, r: Record) {
    AttemptAt(text, probe, r) && Fired(r)
  }

  /** A severity that is not given counts as high. */
  function SeverityOf(text: Text, r: Record): string {
    text.Norm(if r.severity == "" then "HIGH" else r.severity)
  }

  // ---------- What a bucket says about the records ----------

  function Attempts(text: Text, probe: string): Record -> seq<Record> {
    (r: Record) => if AttemptAt(text, probe, r) then [r] else []
  }

  function Hits(text: Text, probe: string): Record -> seq<Record> {
    (r: Record) => if HitAt(text, probe, r) then [r] else []
  }

  /** A known severity, no hit ranks higher, and some hit has it (or it is the blank one). */
  ghost predicate TopSeverity(text: Text, records: seq<Record>, probe: string, severity: string) {
    && severity in SEVERITIES
    && (severity == "" || exists r | r in records && HitAt(text, probe, r) :: SeverityOf(text, r) == severity)
    && forall r | r in records && HitAt(text, probe, r) :: RankOf(SeverityOf(text, r)) <= RankOf(severity)
  }

  function Sample(prompt: string): string {
    if |prompt| <= SAMPLE_LENGTH then prompt else prompt[..SAMPLE_LENGTH]
  }

  /** The membership test looks for the whole prompt, but only its start is kept. */
  function WithSample(samples: seq<string>, prompt: string): seq<string> {
    if prompt != "" && |samples| < MAX_SAMPLES && prompt !in samples then samples + [Sample(prompt)] else samples
  }

  function SamplesOf(text: Text, records: seq<Record>, probe: string): seq<string> {
    if records == [] then []
    else
      var before := SamplesOf(text, records[..|records| - 1], probe);
      var r := records[|records| - 1];
      if HitAt(text, probe, r) then WithSample(before, r.prompt) else before
  }

  ghost predicate Summarises(text: Text, records: seq<Record>, probe: string, b: Bucket) {
    && b.probe == probe
    && b.attempts == |Collect(Attempts(text, probe), records)|
    && b.hits == |Collect(Hits(text, probe), records)|
    && TopSeverity(text, records, probe, b.severity)
    && b.samples == SamplesOf(text, records, probe)
  }

  ghost predicate Seen(text: Text, records: seq<Record>, probe: string) {
    exists r | r in records :: AttemptAt(text, probe, r)
  }

  // ---------- Folding the records ----------

  lemma {:induction false} SamplesLast(text: Text, before: seq<Record>, r: Record, probe: string)
    ensures SamplesOf(text, before + [r], probe)
         == if HitAt(text, probe, r) then WithSample(SamplesOf(text, before, probe), r.prompt)
            else SamplesOf(text, before, probe)
  {
    assert (before + [r])[..|before|] == before;
  }

  lemma {:induction false} TopSeverityStep(
    text: Text, before: seq<Record>, r: Record, probe: string, old_: string, new_: string)
    requires text.Lawful() && TopSeverity(text, before, probe, old_) && AttemptAt(text, probe, r)
    requires new_ == if Fired(r) && Rank(text, SeverityOf(text, r)) > Rank(text, old_) then SeverityOf(text, r) else old_
    ensures TopSeverity(text, before + [r], probe, new_)
  {
    var k :| 0 <= k < |SEVERITIES| && SEVERITIES[k] == old_;
    assert text.Norm(old_) == old_;
    assert text.Norm(SeverityOf(text, r)) == SeverityOf(text, r);
    forall q | q in before + [r] && HitAt(text, probe, q)
      ensures RankOf(SeverityOf(text, q)) <= RankOf(new_)
    {
      assert q == r || q in before;
    }
    if new_ != "" {
      if Fired(r) && Rank(text, SeverityOf(text, r)) > Rank(text, old_) {
        assert r in before + [r] && HitAt(text, probe, r);
      } else {
        var q :| q in before && HitAt(text, probe, q) && SeverityOf(text, q) == old_;
        assert q in before + [r];
      }
    }
  }

  /** One record's effect on the bucket of its probe. */
  method AddRecord(text: Text, bucket: Bucket, r: Record, ghost before: seq<Record>) returns (b: Bucket)
    requires text.Lawful() && Counts(text, r)
    requires Summarises(text, before, ProbeOf(text, r), bucket)
    ensures Summarises(text, before + [r], ProbeOf(text, r), b)
  {
    hide Collect, SamplesOf;
    ghost var probe := ProbeOf(text, r);
    ghost var after := before + [r];
    b := bucket.(attempts := bucket.attempts + 1);
    if Fired(r) {
      b := b.(hits := b.hits + 1);
      var sev := SeverityOf(text, r);
      if Rank(text, sev) > Rank(text, b.severity) {
        b := b.(severity := sev);
      }
      b := b.(samples := WithSample(b.samples, r.prompt));
    }
    CollectLast(Attempts(text, probe), before, r);
    CollectLast(Hits(text, probe), before, r);
    SamplesLast(text, before, r, probe);
    TopSeverityStep(text, before, r, probe, bucket.severity, b.severity);
  }

  /** A record of another probe, or one that is passed over, changes nothing here. */
  lemma {:induction false} OtherRecord(text: Text, before: seq<Record>, r: Record, probe: string, b: Bucket)
    requires Summarises(text, before, probe, b) && !AttemptAt(text, probe, r)
    ensures Summarises(text, before + [r], probe, b)
  {
    hide Collect, SamplesOf;
    CollectLast(Attempts(text, probe), before, r);
    CollectLast(Hits(text, probe), before, r);
    SamplesLast(text, before, r, probe);
    assert Attempts(text, probe)(r) == [] && Hits(text, probe)(r) == [];
    forall q | q in before + [r] && HitAt(text, probe, q)
      ensures q in before
    {
    }
    if b.severity != "" {
      var q :| q in before && HitAt(text, probe, q) && SeverityOf(text, q) == b.severity;
      assert q in before + [r];
    }
  }

  /** Before its first record a probe has an empty bucket. */
  lemma {:induction false} UnseenIsEmpty(text: Text, records: seq<Record>, probe: string)
    requires !Seen(text, records, probe)
    ensures Summarises(text, records, probe, Bucket(probe, 0, 0, "", []))
  {
    if records == [] {
    } else {
      var front, r := records[..|records| - 1], records[|records| - 1];
      assert records == front + [r];
      UnseenIsEmpty(text, front, probe);
      assert r in records;
      OtherRecord(text, front, r, probe, Bucket(probe, 0, 0, "", []));
    }
  }

  ghost predicate Listed(text: Text, records: seq<Record>, probes: seq<string>, buckets: map<string, Bucket>) {
    && (forall i, j | 0 <= i < j < |probes| :: probes[i] != probes[j])
    && (forall p :: p in probes <==> p in buckets)
    && (forall p :: p in buckets <==> Seen(text, records, p))
  }

  /** Some record counts for p before any counts for q. */
  ghost predicate SeenBefore(text: Text, records: seq<Record>, p: string, q: string) {
    exists m :: 0 <= m < |records| && AttemptAt(text, p, records[m])
             && forall n | 0 <= n <= m :: !AttemptAt(text, q, records[n])
  }

  ghost predicate InOrder(text: Text, records: seq<Record>, probes: seq<string>) {
    forall i, j | 0 <= i < j < |probes| :: SeenBefore(text, records, probes[i], probes[j])
  }

  lemma {:induction false} OrderStays(text: Text, before: seq<Record>, r: Record, probes: seq<string>)
    requires InOrder(text, before, probes)
    ensures InOrder(text, before + [r], probes)
  {
    forall i, j | 0 <= i < j < |probes|
      ensures SeenBefore(text, before + [r], probes[i], probes[j])
    {
      assert SeenBefore(text, before, probes[i], probes[j]);
      var m :| 0 <= m < |before| && AttemptAt(text, probes[i], before[m])
            && forall n | 0 <= n <= m :: !AttemptAt(text, probes[j], before[n]);
      assert (before + [r])[m] == before[m];
    }
  }

  /** A probe that is new comes after all that were seen. */
  lemma {:induction false} OrderGrows(text: Text, before: seq<Record>, r: Record, probes: seq<string>, p: string)
    requires InOrder(text, before, probes) && !Seen(text, before, p)
    requires forall q | q in probes :: Seen(text, before, q)
    ensures InOrder(text, before + [r], probes + [p])
  {
    forall i | 0 <= i < |probes|
      ensures SeenBefore(text, before, probes[i], p)
    {
      assert Seen(text, before, probes[i]);
      var x :| x in before && AttemptAt(text, probes[i], x);
      var m :| 0 <= m < |before| && before[m] == x;
      assert forall n | 0 <= n <= m :: before[n] in before;
    }
    hide SeenBefore;
    assert InOrder(text, before, probes + [p]);
    OrderStays(text, before, r, probes + [p]);
  }

  ghost predicate Bucketed(text: Text, records: seq<Record>, buckets: map<string, Bucket>) {
    forall p | p in buckets :: Summarises(text, records, p, buckets[p])
  }

  lemma NothingSeen(text: Text)
    ensures forall p :: !Seen(text, [], p)
    ensures InOrder(text, [], [])
  {
  }

  lemma {:induction false} SeenStep(text: Text, before: seq<Record>, r: Record, p: string)
    ensures Seen(text, before + [r], p) <==> Seen(text, before, p) || AttemptAt(text, p, r)
  {
    if AttemptAt(text, p, r) {
      assert r in before + [r];
    }
    if Seen(text, before, p) {
      var q :| q in before && AttemptAt(text, p, q);
      assert q in before + [r];
    }
  }

  /** A record that is passed over. */
  lemma {:induction false} BucketedSkip(text: Text, before: seq<Record>, r: Record, buckets: map<string, Bucket>)
    requires Bucketed(text, before, buckets) && !Counts(text, r)
    ensures Bucketed(text, before + [r], buckets)
  {
    hide Summarises;
    forall p | p in buckets
      ensures Summarises(text, before + [r], p, buckets[p])
    {
      OtherRecord(text, before, r, p, buckets[p]);
    }
  }

  lemma {:induction false} BucketedStep(
    text: Text, before: seq<Record>, r: Record, buckets: map<string, Bucket>, after: map<string, Bucket>)
    requires Bucketed(text, before, buckets) && Counts(text, r) && ProbeOf(text, r) in after
    requires after == buckets[ProbeOf(text, r) := after[ProbeOf(text, r)]]
    requires Summarises(text, before + [r], ProbeOf(text, r), after[ProbeOf(text, r)])
    ensures Bucketed(text, before + [r], after)
  {
    hide Summarises;
    forall p | p in after
      ensures Summarises(text, before + [r], p, after[p])
    {
      if !AttemptAt(text, p, r) {
        assert p in buckets && after[p] == buckets[p];
        OtherRecord(text, before, r, p, buckets[p]);
      }
    }
  }

  /** The probes in the order of their first record, and their buckets. */
  method BucketByProbe(text: Text, records: seq<Record>) returns (probes: seq<string>, buckets: map<string, Bucket>)
    requires text.Lawful()
    ensures Listed(text, records, probes, buckets) && InOrder(text, records, probes)
    ensures Bucketed(text, records, buckets)
  {
    hide Summarises, Seen, InOrder;
    probes, buckets := [], map[];
    NothingSeen(text);
    for i := 0 to |records|
      invariant Listed(text, records[..i], probes, buckets)
      invariant InOrder(text, records[..i], probes)
      invariant Bucketed(text, records[..i], buckets)
    {
      var r := records[i];
      ghost var before := records[..i];
      assert records[..i + 1] == before + [r];
      forall p
        ensures Seen(text, before + [r], p) <==> Seen(text, before, p) || AttemptAt(text, p, r)
      {
        SeenStep(text, before, r, p);
      }
      if r.entryType !in COUNTED {
        BucketedSkip(text, before, r, buckets);
        OrderStays(text, before, r, probes);
        continue;
      }
      var probe := ProbeOf(text, r);
      if probe == "" {
        BucketedSkip(text, before, r, buckets);
        OrderStays(text, before, r, probes);
        continue;
      }
      var bucket := Bucket(probe, 0, 0, "", []);
      ghost var was := buckets;
      if probe in buckets {
        bucket := buckets[probe];
        OrderStays(text, before, r, probes);
      } else {
        UnseenIsEmpty(text, before, probe);
        OrderGrows(text, before, r, probes, probe);
        probes := probes + [probe];
      }
      bucket := AddRecord(text, bucket, r, before);
      buckets := buckets[probe := bucket];
      BucketedStep(text, before, r, was, buckets);
    }
    assert records[..|records|] == records;
  }

  // ---------- Turning buckets into test cases ----------

  function CharLe(a: char, b: char): bool { a <= b }

  function StringLe(a: string, b: string): bool { Lex(CharLe, a, b) }

  /** What precedes the first full stop. */
  function FirstPart(s: string): string {
    if s == "" || s[0] == '.' then "" else [s[0]] + FirstPart(s[1..])
  }

  function CaseOf(text: Text, b: Bucket): Case {
    var sev := text.Norm(b.severity);
    var verdict := if b.hits == 0 then Clean else if sev in FAIL_SEVERITIES then Failure else Skipped;
    Case(b.probe, "garak." + FirstPart(b.probe), b.attempts, b.hits, verdict,
         if b.hits == 0 then "" else if sev == "" then "UNKNOWN" else sev,
         if b.hits == 0 then [] else b.samples)
  }

  function WithVerdict(cases: seq<Case>, verdict: Verdict): nat {
    if cases == [] then 0
    else WithVerdict(cases[..|cases| - 1], verdict) + (if cases[|cases| - 1].verdict == verdict then 1 else 0)
  }

  lemma {:induction false} WithVerdictLast(cases: seq<Case>, c: Case, verdict: Verdict)
    ensures WithVerdict(cases + [c], verdict) == WithVerdict(cases, verdict) + (if c.verdict == verdict then 1 else 0)
  {
    assert (cases + [c])[..|cases|] == cases;
  }

  /** The test case of a probe says what its records say. */
  ghost predicate Reports(text: Text, records: seq<Record>, c: Case) {
    exists b: Bucket :: Summarises(text, records, c.name, b) && c == CaseOf(text, b)
  }

  ghost predicate Named(cases: seq<Case>, name: string) {
    exists i :: 0 <= i < |cases| && cases[i].name == name
  }

  /** The counters are those of the cases, which stand in the order of their names. */
  ghost predicate Tallied(suite: Suite) {
    && suite.tests == |suite.cases|
    && suite.failures == WithVerdict(suite.cases, Failure)
    && suite.errors == 0
    && suite.skipped == WithVerdict(suite.cases, Skipped)
    && forall i, j | 0 <= i < j < |suite.cases| ::
         suite.cases[i].name != suite.cases[j].name && StringLe(suite.cases[i].name, suite.cases[j].name)
  }

  /** One case for every probe seen, and for no other; or the one that says that nothing was seen. */
  ghost predicate SuiteFor(text: Text, records: seq<Record>, suite: Suite) {
    && Tallied(suite)
    && if forall p :: !Seen(text, records, p) then suite.cases == [NO_RECORDS]
       else
         && (forall i | 0 <= i < |suite.cases| :: Reports(text, records, suite.cases[i]))
         && (forall p :: Seen(text, records, p) <==> Named(suite.cases, p))
  }

  lemma NamedAfter(text: Text, records: seq<Record>, probe: string, b: Bucket)
    requires Summarises(text, records, probe, b)
    ensures b.probe == probe
  {
  }

  /** The cases of the probes in order, counting failures and skips on the way. */
  method EmitCases(text: Text, probes: seq<string>, buckets: map<string, Bucket>, ghost records: seq<Record>)
    returns (cases: seq<Case>, failures: nat, skipped: nat)
    requires Bucketed(text, records, buckets) && forall i | 0 <= i < |probes| :: probes[i] in buckets
    ensures |cases| == |probes|
    ensures forall i | 0 <= i < |probes| :: cases[i].name == probes[i] && Reports(text, records, cases[i])
    ensures failures == WithVerdict(cases, Failure) && skipped == WithVerdict(cases, Skipped)
  {
    hide Summarises;
    cases, failures, skipped := [], 0, 0;
    for i := 0 to |probes|
      invariant |cases| == i
      invariant forall k | 0 <= k < i :: cases[k].name == probes[k] && Reports(text, records, cases[k])
      invariant failures == WithVerdict(cases, Failure) && skipped == WithVerdict(cases, Skipped)
    {
      var b := buckets[probes[i]];
      NamedAfter(text, records, probes[i], b);
      var sev := text.Norm(b.severity);
      var c := Case(b.probe, "garak." + FirstPart(b.probe), b.attempts, b.hits, Clean, "", []);
      if b.hits != 0 {
        c := c.(severity := if sev == "" then "UNKNOWN" else sev, samples := b.samples);
        if sev in FAIL_SEVERITIES {
          c := c.(verdict := Failure);
          failures := failures + 1;
        } else {
          c := c.(verdict := Skipped);
          skipped := skipped + 1;
        }
      }
      assert c == CaseOf(text, b);
      WithVerdictLast(cases, c, Failure);
      WithVerdictLast(cases, c, Skipped);
      cases := cases + [c];
    }
  }

  lemma {:induction false} SortedProbes(found: seq<string>)
    requires NoneTwice(found)
    ensures var probes := Sort(StringLe, found);
      Sorted(StringLe, probes) && NoneTwice(probes) && |probes| == |found| && forall p :: p in probes <==> p in found
  {
    var probes := Sort(StringLe, found);
    StringOrder();
    SortSorts(StringLe, found);
    SortKeeps(StringLe, found);
    OnceEach(found);
    forall p
      ensures p in probes <==> p in found
    {
      assert p in multiset(probes) <==> p in multiset(found);
    }
    CountedOnce(probes);
  }

  lemma {:induction false} NoRecordsTally()
    ensures WithVerdict([NO_RECORDS], Failure) == 0 && WithVerdict([NO_RECORDS], Skipped) == 1
  {
    WithVerdictLast([], NO_RECORDS, Failure);
    WithVerdictLast([], NO_RECORDS, Skipped);
    assert [] + [NO_RECORDS] == [NO_RECORDS];
  }

  lemma {:induction false} CasesCover(text: Text, records: seq<Record>, probes: seq<string>, cases: seq<Case>)
    requires |cases| == |probes| && forall i | 0 <= i < |probes| :: cases[i].name == probes[i]
    requires forall p :: p in probes <==> Seen(text, records, p)
    ensures forall p :: Seen(text, records, p) <==> Named(cases, p)
  {
    hide Seen;
    forall p
      ensures Seen(text, records, p) <==> Named(cases, p)
    {
      if p in probes {
        var i :| 0 <= i < |probes| && probes[i] == p;
        assert cases[i].name == p;
      }
    }
  }

  method Convert(text: Text, records: seq<Record>, name: string) returns (suite: Suite)
    requires text.Lawful()
    ensures suite.name == name && SuiteFor(text, records, suite)
  {
    hide Seen, Reports, Bucketed, InOrder, Named, StringLe, Sort, Summarises, WithVerdict;
    var found, buckets := BucketByProbe(text, records);
    var probes := Sort(StringLe, found);
    SortedProbes(found);
    if probes == [] {
      assert forall p :: p !in probes;
      NoRecordsTally();
      return Suite(name, 1, 0, 0, 1, [NO_RECORDS]);
    }
    assert probes[0] in probes;
    var cases, failures, skipped := EmitCases(text, probes, buckets, records);
    suite := Suite(name, |probes|, failures, 0, skipped, cases);
    CasesCover(text, records, probes, cases);
  }

  lemma {:induction false} StringOrder()
    ensures Order(StringLe)
  {
    assert Order(CharLe);
    forall x, y
      ensures StringLe(x, y) || StringLe(y, x)
      ensures StringLe(x, y) && StringLe(y, x) ==> x == y
    {
      LexTotal(CharLe, x, y);
    }
    forall x, y, z | StringLe(x, y) && StringLe(y, z)
      ensures StringLe(x, z)
    {
      LexTransitive(CharLe, x, y, z);
    }
  }

  ghost predicate PrecedesAt(s: string, t: string, k: nat) {
    k <= |s| && k < |t| && s[..k] == t[..k] && (k == |s| || s[k] < t[k])
  }

  /** The first string ends where the second goes on, or has the smaller character at the first difference. */
  ghost predicate Precedes(s: string, t: string) {
    exists k: nat :: PrecedesAt(s, t, k)
  }

  lemma {:induction false} StringLeIff(s: string, t: string)
    ensures StringLe(s, t) <==> s == t || Precedes(s, t)
  {
    LexIff(CharLe, s, t);
    hide Lex;
    if k: nat :| AgreeUpTo(CharLe, s, t, k) {
      if k < |t| {
        assert PrecedesAt(s, t, k);
      } else {
        assert s == t;
      }
    }
    if k: nat :| PrecedesAt(s, t, k) {
      assert AgreeUpTo(CharLe, s, t, k);
    }
    if s == t {
      assert AgreeUpTo(CharLe, s, t, |s|);
    }
  }

  /** The cases stand in the order of their names. */
  lemma {:induction false} NamesRise(suite: Suite, i: nat, j: nat)
    requires Tallied(suite) && i < j < |suite.cases|
    ensures Precedes(suite.cases[i].name, suite.cases[j].name)
  {
    hide WithVerdict, StringLe, Precedes;
    StringLeIff(suite.cases[i].name, suite.cases[j].name);
  }

  ghost predicate NoneTwice<T>(s: seq<T>) {
    forall i, j | 0 <= i < j < |s| :: s[i] != s[j]
  }

  lemma {:induction false} OnceEach<T>(s: seq<T>)
    requires NoneTwice(s)
    ensures forall x | x in s :: multiset(s)[x] == 1
  {
    if s == [] {
    } else {
      OnceEach(s[1..]);
      assert s == [s[0]] + s[1..];
      assert s[0] !in s[1..];
    }
  }

  lemma {:induction false} CountedOnce<T>(s: seq<T>)
    requires forall x | x in s :: multiset(s)[x] == 1
    ensures NoneTwice(s)
  {
    forall i, j | 0 <= i < j < |s|
      ensures s[i] != s[j]
    {
      assert s == s[..j] + s[j..];
      assert s[..j][i] in multiset(s[..j]) && s[j..][0] in multiset(s[j..]);
      assert s[i] in s;
    }
  }

  // ---------- What the report says ----------

  lemma {:induction false} FewerCollected(f: Record -> seq<Record>, g: Record -> seq<Record>, records: seq<Record>)
    requires forall r :: |f(r)| <= |g(r)|
    ensures |Collect(f, records)| <= |Collect(g, records)|
  {
    if records == [] {
    } else {
      FewerCollected(f, g, records[1..]);
    }
  }

  /** A hit is an attempt, and a clean case is one whose probe never fired. */
  lemma {:induction false} HitsAreAttempts(text: Text, records: seq<Record>, c: Case)
    requires Reports(text, records, c)
    ensures c.hits <= c.attempts
    ensures c.attempts == 0 <==> !Seen(text, records, c.name)
    ensures c.verdict == Clean <==> !exists r :: r in records && HitAt(text, c.name, r)
  {
    var b: Bucket :| Summarises(text, records, c.name, b) && c == CaseOf(text, b);
    FewerCollected(Hits(text, c.name), Attempts(text, c.name), records);
    CollectEmptyIff(Hits(text, c.name), records);
    CollectEmptyIff(Attempts(text, c.name), records);
  }

  // ---------- In terms of the records' own fields ----------

  /** A record of one of the counted kinds that names the probe, or names it as its plugin. */
  ghost predicate TriesProbe(text: Text, probe: string, r: Record) {
    && (r.entryType == "attempt" || r.entryType == "eval" || r.entryType == "")
    && probe != ""
    && probe == if r.probe != "" then text.strip(r.probe) else text.strip(r.plugin)
  }

  /** Such a record that did not pass, or scored at least a half. */
  ghost predicate HitsProbe(text: Text, probe: string, r: Record) {
    TriesProbe(text, probe, r) && (r.passed == Some(false) || (r.score.Some? && r.score.value >= 0.5))
  }

  /** The severity as it is written, cleaned up; high if there is none. */
  ghost predicate HasSeverity(text: Text, r: Record, severity: string) {
    if r.severity == "" then severity == "HIGH" else text.upper(text.strip(r.severity)) == severity
  }

  lemma {:induction false} FieldsSay(text: Text, probe: string, r: Record)
    requires text.Lawful()
    ensures AttemptAt(text, probe, r) <==> TriesProbe(text, probe, r)
    ensures HitAt(text, probe, r) <==> HitsProbe(text, probe, r)
    ensures forall severity :: HasSeverity(text, r, severity) <==> SeverityOf(text, r) == severity
  {
    assert SEVERITIES[5] == "HIGH";
  }

  ghost predicate SomeHit(text: Text, records: seq<Record>, probe: string, severity: string) {
    exists r :: r in records && HitsProbe(text, probe, r) && HasSeverity(text, r, severity)
  }

  lemma Ranks()
    ensures RankOf("CRITICAL") == 6 && RankOf("HIGH") == 5 && RankOf("MEDIUM") == 4 && RankOf("LOW") == 3
    ensures RankOf("UNKNOWN") == 2 && RankOf("INFO") == 1 && RankOf("") == 0
  {
  }

  /** The top severity of a probe, found by trying the severities from the gravest down. */
  lemma {:induction false} TopIsSomeHit(text: Text, records: seq<Record>, probe: string, severity: string)
    requires text.Lawful() && TopSeverity(text, records, probe, severity)
    ensures text.Norm(severity) == severity
    ensures severity ==
      if SomeHit(text, records, probe, "CRITICAL") then "CRITICAL"
      else if SomeHit(text, records, probe, "HIGH") then "HIGH"
      else if SomeHit(text, records, probe, "MEDIUM") then "MEDIUM"
      else if SomeHit(text, records, probe, "LOW") then "LOW"
      else if SomeHit(text, records, probe, "UNKNOWN") then "UNKNOWN"
      else if SomeHit(text, records, probe, "INFO") then "INFO"
      else ""
  {
    hide HitAt, HitsProbe, HasSeverity, SeverityOf;
    var k :| 0 <= k < |SEVERITIES| && SEVERITIES[k] == severity;
    forall r
      ensures HitAt(text, probe, r) <==> HitsProbe(text, probe, r)
      ensures forall t :: HasSeverity(text, r, t) <==> SeverityOf(text, r) == t
    {
      FieldsSay(text, probe, r);
    }
    forall t | SomeHit(text, records, probe, t)
      ensures RankOf(t) <= RankOf(severity)
    {
    }
    assert severity != "" ==> SomeHit(text, records, probe, severity);
    Ranks();
  }

  /** A probe fails exactly when one of its hits is high or critical; a hit that does not say is high. */
  lemma {:induction false} FailureIff(text: Text, records: seq<Record>, c: Case)
    requires text.Lawful() && Reports(text, records, c)
    ensures c.verdict == Failure
           <==> SomeHit(text, records, c.name, "HIGH") || SomeHit(text, records, c.name, "CRITICAL")
    ensures c.verdict == Clean <==> !exists r :: r in records && HitsProbe(text, c.name, r)
  {
    hide Collect, HitAt, HitsProbe, HasSeverity, SeverityOf;
    var b: Bucket :| Summarises(text, records, c.name, b) && c == CaseOf(text, b);
    HitsAreAttempts(text, records, c);
    TopIsSomeHit(text, records, c.name, b.severity);
    forall r | r in records
      ensures HitAt(text, c.name, r) <==> HitsProbe(text, c.name, r)
    {
      FieldsSay(text, c.name, r);
    }
  }

  /** The severity a case shows: the gravest among its probe's hits, or that it is unknown. */
  lemma {:induction false} SeverityIs(text: Text, records: seq<Record>, c: Case)
    requires text.Lawful() && Reports(text, records, c)
    ensures c.severity ==
      if SomeHit(text, records, c.name, "CRITICAL") then "CRITICAL"
      else if SomeHit(text, records, c.name, "HIGH") then "HIGH"
      else if SomeHit(text, records, c.name, "MEDIUM") then "MEDIUM"
      else if SomeHit(text, records, c.name, "LOW") then "LOW"
      else if SomeHit(text, records, c.name, "UNKNOWN") then "UNKNOWN"
      else if SomeHit(text, records, c.name, "INFO") then "INFO"
      else if c.verdict != Clean then "UNKNOWN"
      else ""
  {
    hide Collect, HitsProbe, HasSeverity, TopSeverity;
    var b: Bucket :| Summarises(text, records, c.name, b) && c == CaseOf(text, b);
    TopIsSomeHit(text, records, c.name, b.severity);
    FailureIff(text, records, c);
  }

  /** Where a property holds in a list. */
  ghost function Places<T(!new)>(s: seq<T>, holds: T -> bool): set<int> {
    set i | 0 <= i < |s| && holds(s[i])
  }

  lemma {:induction false} PlacesLast<T(!new)>(s: seq<T>, x: T, holds: T -> bool)
    ensures Places(s + [x], holds) == Places(s, holds) + if holds(x) then {|s|} else {}
  {
  }

  lemma {:induction false} CollectedPlaces<T(!new)>(f: T -> seq<T>, holds: T -> bool, s: seq<T>)
    requires forall x :: f(x) == if holds(x) then [x] else []
    ensures |Collect(f, s)| == |Places(s, holds)|
  {
    if s == [] {
    } else {
      hide Collect;
      var front, x := s[..|s| - 1], s[|s| - 1];
      assert s == front + [x];
      CollectedPlaces(f, holds, front);
      CollectLast(f, front, x);
      PlacesLast(front, x, holds);
    }
  }

  /** The two numbers of a case are those of the records that try its probe and of those that hit it. */
  lemma {:induction false} NumbersAre(text: Text, records: seq<Record>, c: Case)
    requires text.Lawful() && Reports(text, records, c)
    ensures c.attempts == |set i | 0 <= i < |records| && TriesProbe(text, c.name, records[i])|
    ensures c.hits == |set i | 0 <= i < |records| && HitsProbe(text, c.name, records[i])|
  {
    hide TopSeverity, AttemptAt, HitAt, TriesProbe, HitsProbe, Collect;
    var b: Bucket :| Summarises(text, records, c.name, b) && c == CaseOf(text, b);
    forall r
      ensures AttemptAt(text, c.name, r) <==> TriesProbe(text, c.name, r)
      ensures HitAt(text, c.name, r) <==> HitsProbe(text, c.name, r)
    {
      FieldsSay(text, c.name, r);
    }
    var tries, hits := (r: Record) => AttemptAt(text, c.name, r), (r: Record) => HitAt(text, c.name, r);
    CollectedPlaces(Attempts(text, c.name), tries, records);
    CollectedPlaces(Hits(text, c.name), hits, records);
    assert Places(records, tries) == set i | 0 <= i < |records| && TriesProbe(text, c.name, records[i]);
    assert Places(records, hits) == set i | 0 <= i < |records| && HitsProbe(text, c.name, records[i]);
  }

  lemma {:induction false} FirstPartIs(s: string)
    ensures '.' !in FirstPart(s)
    ensures |FirstPart(s)| <= |s| && s[..|FirstPart(s)|] == FirstPart(s)
    ensures |FirstPart(s)| == |s| || s[|FirstPart(s)|] == '.'
  {
    if s == "" || s[0] == '.' {
    } else {
      var rest := FirstPart(s[1..]);
      FirstPartIs(s[1..]);
      assert FirstPart(s) == [s[0]] + rest;
      hide FirstPart;
      assert s[..1 + |rest|] == [s[0]] + s[1..][..|rest|];
    }
  }

  /** The class of a case is the part of its probe's name before the first full stop. */
  lemma {:induction false} ClassIs(text: Text, records: seq<Record>, c: Case) returns (first: string)
    requires Reports(text, records, c)
    ensures c.className == "garak." + first && '.' !in first && first <= c.name
    ensures first == c.name || c.name[|first|] == '.'
  {
    first := FirstPart(c.name);
    FirstPartIs(c.name);
  }

  lemma {:induction false} VerdictPlaces(cases: seq<Case>, verdict: Verdict)
    ensures WithVerdict(cases, verdict) == |set i | 0 <= i < |cases| && cases[i].verdict == verdict|
  {
    if cases == [] {
    } else {
      var front, c := cases[..|cases| - 1], cases[|cases| - 1];
      VerdictPlaces(front, verdict);
      assert (set i | 0 <= i < |cases| && cases[i].verdict == verdict)
          == (set i | 0 <= i < |front| && front[i].verdict == verdict)
             + if c.verdict == verdict then {|cases| - 1} else {};
    }
  }

  lemma {:induction false} CountersCount(suite: Suite)
    requires Tallied(suite)
    ensures suite.failures == |set i | 0 <= i < |suite.cases| && suite.cases[i].verdict == Failure|
    ensures suite.skipped == |set i | 0 <= i < |suite.cases| && suite.cases[i].verdict == Skipped|
  {
    VerdictPlaces(suite.cases, Failure);
    VerdictPlaces(suite.cases, Skipped);
  }

  /** Only one severity can be the top one. */
  lemma {:induction false} TopSeverityUnique(
    text: Text, a: seq<Record>, b: seq<Record>, probe: string, s: string, t: string)
    requires (forall r :: r in a <==> r in b) && TopSeverity(text, a, probe, s) && TopSeverity(text, b, probe, t)
    ensures s == t
  {
    assert RankOf("") == 0;
    if s != "" {
      var r :| r in a && HitAt(text, probe, r) && SeverityOf(text, r) == s;
      assert r in b && RankOf(s) <= RankOf(t);
    }
    if t != "" {
      var r :| r in b && HitAt(text, probe, r) && SeverityOf(text, r) == t;
      assert r in a && RankOf(t) <= RankOf(s);
    }
  }

  lemma {:induction false} SameMembers<T>(a: seq<T>, b: seq<T>)
    requires multiset(a) == multiset(b)
    ensures forall r :: r in a <==> r in b
  {
    forall r
      ensures r in a <==> r in b
    {
      assert r in multiset(a) <==> r in multiset(b);
    }
  }

  /** Attempts, hits, verdict and severity of a probe do not depend on the order of the records. */
  lemma {:induction false} CaseForgetsOrder(text: Text, a: seq<Record>, b: seq<Record>, c: Case, d: Case)
    requires multiset(a) == multiset(b) && c.name == d.name && Reports(text, a, c) && Reports(text, b, d)
    ensures c.(samples := []) == d.(samples := [])
  {
    hide Collect, SamplesOf;
    var x: Bucket :| Summarises(text, a, c.name, x) && c == CaseOf(text, x);
    var y: Bucket :| Summarises(text, b, d.name, y) && d == CaseOf(text, y);
    SameMembers(a, b);
    TopSeverityUnique(text, a, b, c.name, x.severity, y.severity);
    CollectForgetsOrder(Attempts(text, c.name), a, b);
    CollectForgetsOrder(Hits(text, c.name), a, b);
    assert |multiset(Collect(Attempts(text, c.name), a))| == |multiset(Collect(Attempts(text, c.name), b))|;
    assert |multiset(Collect(Hits(text, c.name), a))| == |multiset(Collect(Hits(text, c.name), b))|;
  }

  function NameOf(c: Case): string { c.name }

  lemma {:induction false} NamedIsMapped(cases: seq<Case>)
    ensures forall p :: p in Map(NameOf, cases) <==> Named(cases, p)
  {
    var ns := Map(NameOf, cases);
    forall p
      ensures p in ns <==> Named(cases, p)
    {
      if p in ns {
        var i :| 0 <= i < |ns| && ns[i] == p;
        assert cases[i].name == p;
      }
      if i :| 0 <= i < |cases| && cases[i].name == p {
        assert ns[i] == p;
      }
    }
  }

  lemma {:induction false} SameOnce<T>(a: seq<T>, b: seq<T>)
    requires NoneTwice(a) && NoneTwice(b) && forall x :: x in a <==> x in b
    ensures multiset(a) == multiset(b)
  {
    OnceEach(a);
    OnceEach(b);
    forall x
      ensures multiset(a)[x] == multiset(b)[x]
    {
      assert x in multiset(a) <==> x in a;
      assert x in multiset(b) <==> x in b;
    }
  }

  lemma {:induction false} NamesForgetOrder(cs: seq<Case>, ds: seq<Case>)
    requires forall i, j | 0 <= i < j < |cs| :: cs[i].name != cs[j].name && StringLe(cs[i].name, cs[j].name)
    requires forall i, j | 0 <= i < j < |ds| :: ds[i].name != ds[j].name && StringLe(ds[i].name, ds[j].name)
    requires forall p :: Named(cs, p) <==> Named(ds, p)
    ensures Map(NameOf, cs) == Map(NameOf, ds)
  {
    hide StringLe;
    var ns, ms := Map(NameOf, cs), Map(NameOf, ds);
    StringOrder();
    NamedIsMapped(cs);
    NamedIsMapped(ds);
    SameOnce(ns, ms);
    SortedUnique(StringLe, ns, ms);
  }

  lemma {:induction false} SeenForgetsOrder(text: Text, a: seq<Record>, b: seq<Record>)
    requires forall r :: r in a <==> r in b
    ensures forall p :: Seen(text, a, p) <==> Seen(text, b, p)
  {
  }

  lemma {:induction false} SameVerdicts(cs: seq<Case>, ds: seq<Case>, verdict: Verdict)
    requires |cs| == |ds| && forall i | 0 <= i < |cs| :: cs[i].(samples := []) == ds[i].(samples := [])
    ensures WithVerdict(cs, verdict) == WithVerdict(ds, verdict)
  {
    if cs == [] {
    } else {
      var n := |cs| - 1;
      assert cs[n].verdict == cs[n].(samples := []).verdict == ds[n].(samples := []).verdict == ds[n].verdict;
      SameVerdicts(cs[..n], ds[..n], verdict);
    }
  }

  /** The records may come in any order: the suite is the same up to the prompts it samples. */
  lemma {:induction false} SuiteForgetsOrder(text: Text, a: seq<Record>, b: seq<Record>, s: Suite, t: Suite)
    requires multiset(a) == multiset(b) && SuiteFor(text, a, s) && SuiteFor(text, b, t)
    ensures |s.cases| == |t.cases|
    ensures forall i | 0 <= i < |s.cases| :: s.cases[i].(samples := []) == t.cases[i].(samples := [])
    ensures s.tests == t.tests && s.failures == t.failures && s.errors == t.errors && s.skipped == t.skipped
  {
    hide Reports, Named, Seen, StringLe;
    SameMembers(a, b);
    if exists p :: Seen(text, a, p) {
      var p :| Seen(text, a, p);
      SeenForgetsOrder(text, a, b);
      NamesForgetOrder(s.cases, t.cases);
      var ns, ms := Map(NameOf, s.cases), Map(NameOf, t.cases);
      assert |ns| == |s.cases| && |ms| == |t.cases|;
      forall i | 0 <= i < |s.cases|
        ensures s.cases[i].(samples := []) == t.cases[i].(samples := [])
      {
        assert ns[i] == ms[i];
        CaseForgetsOrder(text, a, b, s.cases[i], t.cases[i]);
      }
    } else {
      SeenForgetsOrder(text, a, b);
      assert s.cases == [NO_RECORDS] && t.cases == [NO_RECORDS];
    }
    SameVerdicts(s.cases, t.cases, Failure);
    SameVerdicts(s.cases, t.cases, Skipped);
  }

  /** The first two hundred characters of a prompt, or all of it. */
  ghost predicate StartOf(s: string, prompt: string) {
    s <= prompt && |s| <= 200 && (|s| == 200 || s == prompt)
  }

  lemma {:induction false} SamplesAreHits(text: Text, records: seq<Record>, probe: string)
    ensures |SamplesOf(text, records, probe)| <= MAX_SAMPLES
    ensures forall s | s in SamplesOf(text, records, probe) ::
              exists r :: r in records && HitAt(text, probe, r) && r.prompt != "" && s == Sample(r.prompt)
  {
    if records == [] {
    } else {
      var front, r := records[..|records| - 1], records[|records| - 1];
      SamplesAreHits(text, front, probe);
      forall s | s in SamplesOf(text, records, probe)
        ensures exists r :: r in records && HitAt(text, probe, r) && r.prompt != "" && s == Sample(r.prompt)
      {
        if s in SamplesOf(text, front, probe) {
          var q :| q in front && HitAt(text, probe, q) && q.prompt != "" && s == Sample(q.prompt);
          assert q in records;
        } else {
          assert r in records;
        }
      }
    }
  }

  lemma {:induction false} SamplesAreShort(text: Text, records: seq<Record>, probe: string)
    ensures forall s | s in SamplesOf(text, records, probe) :: |s| <= SAMPLE_LENGTH
  {
    if records == [] {
    } else {
      SamplesAreShort(text, records[..|records| - 1], probe);
    }
  }

  lemma {:induction false} SamplesComplete(text: Text, records: seq<Record>, probe: string)
    ensures |SamplesOf(text, records, probe)| < MAX_SAMPLES ==>
              forall r | r in records && HitAt(text, probe, r) && r.prompt != "" ::
                Sample(r.prompt) in SamplesOf(text, records, probe)
  {
    if records == [] {
    } else {
      var front, last := records[..|records| - 1], records[|records| - 1];
      SamplesComplete(text, front, probe);
      SamplesAreShort(text, front, probe);
      assert records == front + [last];
    }
  }

  /** At most three samples, each the start of a prompt that produced a hit; with fewer, none is left out. */
  lemma {:induction false} SamplesAre(text: Text, records: seq<Record>, probe: string)
    requires text.Lawful()
    ensures |SamplesOf(text, records, probe)| <= 3
    ensures forall s | s in SamplesOf(text, records, probe) ::
              exists r :: r in records && HitsProbe(text, probe, r) && r.prompt != "" && StartOf(s, r.prompt)
    ensures |SamplesOf(text, records, probe)| < 3 ==>
              forall r | r in records && HitsProbe(text, probe, r) && r.prompt != "" ::
                exists s :: s in SamplesOf(text, records, probe) && StartOf(s, r.prompt)
  {
    hide HitAt, HitsProbe, SamplesOf;
    forall r
      ensures HitAt(text, probe, r) <==> HitsProbe(text, probe, r)
    {
      FieldsSay(text, probe, r);
    }
    SamplesAreHits(text, records, probe);
    SamplesComplete(text, records, probe);
  }

  /**
   The record repeats a sample: it hits with a prompt too long to be kept whole, there is still room,
   and the start that is kept is a sample already.
   */
  ghost predicate Repeats(text: Text, probe: string, before: seq<Record>, r: Record) {
    && HitAt(text, probe, r)
    && |r.prompt| > SAMPLE_LENGTH
    && |SamplesOf(text, before, probe)| < MAX_SAMPLES
    && Sample(r.prompt) in SamplesOf(text, before, probe)
  }

  lemma {:induction false} DistinctStep(text: Text, before: seq<Record>, r: Record, probe: string)
    ensures NoneTwice(SamplesOf(text, before + [r], probe))
       <==> NoneTwice(SamplesOf(text, before, probe)) && !Repeats(text, probe, before, r)
  {
    hide SamplesOf;
    SamplesLast(text, before, r, probe);
    SamplesAreShort(text, before, probe);
    var was, now := SamplesOf(text, before, probe), SamplesOf(text, before + [r], probe);
    assert was == now[..|was|];
    if Repeats(text, probe, before, r) {
      var i :| 0 <= i < |was| && was[i] == Sample(r.prompt);
      assert now[i] == now[|was|];
    }
    if NoneTwice(now) {
      assert forall i, j | 0 <= i < j < |was| :: was[i] == now[i] && was[j] == now[j];
    }
  }

  /** The samples of a probe are pairwise different exactly if no record repeats one. */
  lemma {:induction false} SamplesDistinctIff(text: Text, records: seq<Record>, probe: string)
    ensures NoneTwice(SamplesOf(text, records, probe))
       <==> forall i | 0 <= i < |records| :: !Repeats(text, probe, records[..i], records[i])
  {
    hide Repeats;
    if records == [] {
    } else {
      hide SamplesOf;
      var n := |records| - 1;
      var front := records[..n];
      assert records == front + [records[n]];
      SamplesDistinctIff(text, front, probe);
      DistinctStep(text, front, records[n], probe);
      assert forall i | 0 <= i < n :: front[..i] == records[..i] && front[i] == records[i];
    }
  }

  /** In particular they are if every prompt that hits is short enough to be kept whole. */
  lemma {:induction false} ShortPromptsDiffer(text: Text, records: seq<Record>, probe: string)
    requires forall r | r in records && HitAt(text, probe, r) :: |r.prompt| <= SAMPLE_LENGTH
    ensures NoneTwice(SamplesOf(text, records, probe))
  {
    hide SamplesOf;
    SamplesDistinctIff(text, records, probe);
    assert forall i | 0 <= i < |records| :: records[i] in records;
  }

  /** Two different prompts, neither repeated, that leave the same sample twice. */
  lemma {:induction false} SharedStartRepeats(text: Text, probe: string, r: Record, q: Record)
    requires HitAt(text, probe, r) && HitAt(text, probe, q)
    requires |r.prompt| == SAMPLE_LENGTH && |q.prompt| > SAMPLE_LENGTH && q.prompt[..SAMPLE_LENGTH] == r.prompt
    ensures r.prompt != q.prompt && SamplesOf(text, [r, q], probe) == [r.prompt, r.prompt]
  {
    assert [r, q][..1] == [r] && [r][..0] == [];
    assert SamplesOf(text, [r], probe) == [r.prompt] by {
      assert [] + [Sample(r.prompt)] == [r.prompt];
    }
  }
}
