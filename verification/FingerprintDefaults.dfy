/** Which changes of a column's default the fingerprint sees. */
module FingerprintDefaults {
  import opened Fingerprint
  import opened FingerprintProofs
  import opened JsonText
  import opened Options
  import opened Sorting

  // ---------- A missing default ----------

  lemma {:induction false} StripFrontWithin(s: Str)
    ensures forall c | c in StripFront(s) :: c in s
  {
    if s != [] && IsSpace(s[0]) {
      StripFrontWithin(s[1..]);
    }
  }

  lemma {:induction false} StripBackWithin(s: Str)
    ensures forall c | c in StripBack(s) :: c in s
  {
    if s != [] && IsSpace(s[|s| - 1]) {
      StripBackWithin(s[..|s| - 1]);
    }
  }

  lemma {:induction false} LoweredHasNoCapital(s: Str, n: CodePoint)
    requires 65 <= n <= 90
    ensures n !in StripBack(StripFront(Map(LowerPoint, s)))
  {
    var lowered := Map(LowerPoint, s);
    assert n !in lowered;
    StripFrontWithin(lowered);
    StripBackWithin(StripFront(lowered));
  }

  /**
   A column without a default looks like one whose default text, or representation, is the word None;
   no other clause can look like it, since it would be in lower case.
   */
  lemma {:induction false} NoDefaultCollidesIff(d: Default)
    ensures CanonicalDefault(d) == CanonicalDefault(NoDefault)
       <==> d.NoDefault? || d == TextDefault(Ascii("None")) || d == OtherDefault(Ascii("None"))
  {
    assert Ascii("None")[0] == 78;
    if d.ClauseDefault? {
      LoweredHasNoCapital(d.text, 78);
      assert 78 in Ascii("None");
    }
  }

  // ---------- Any two defaults ----------

  /** All but a slice of the text is white space, and the slice neither starts nor ends with any. */
  ghost predicate IsCore(s: Str, i: nat, j: nat) {
    && i <= j <= |s|
    && (forall k | 0 <= k < |s| && (k < i || j <= k) :: IsSpace(s[k]))
    && (i < j ==> !IsSpace(s[i]) && !IsSpace(s[j - 1]))
  }

  lemma {:induction false} HasCore(s: Str) returns (i: nat, j: nat)
    ensures IsCore(s, i, j)
  {
    if s == [] {
      i, j := 0, 0;
    } else {
      var a, b := HasCore(s[1..]);
      assert forall k | 0 < k < |s| :: s[k] == s[1..][k - 1];
      if !IsSpace(s[0]) {
        i, j := 0, if a < b then b + 1 else 1;
      } else if a < b {
        i, j := a + 1, b + 1;
      } else {
        i, j := 0, 0;
      }
    }
  }

  lemma {:induction false} StripFrontIs(s: Str, i: nat, j: nat)
    requires IsCore(s, i, j)
    ensures StripFront(s) == if i < j then s[i..] else []
  {
    if s == [] || (i == 0 && i < j) {
    } else {
      var a, b := if i == 0 then 0 else i - 1, if j == 0 then 0 else j - 1;
      assert forall k | 0 <= k < |s[1..]| :: s[1..][k] == s[k + 1];
      if i < j {
        StripFrontIs(s[1..], i - 1, j - 1);
        assert s[1..][i - 1..] == s[i..];
      } else {
        assert forall k | 0 <= k < |s| :: IsSpace(s[k]);
        StripFrontIs(s[1..], 0, 0);
      }
    }
  }

  lemma {:induction false} StripBackIs(s: Str, j: nat)
    requires 0 < j <= |s| && !IsSpace(s[j - 1]) && forall k | j <= k < |s| :: IsSpace(s[k])
    ensures StripBack(s) == s[..j]
  {
    if j == |s| {
      assert s[..j] == s;
    } else {
      StripBackIs(s[..|s| - 1], j);
      assert s[..|s| - 1][..j] == s[..j];
    }
  }

  lemma {:induction false} LowerKeepsSpaces(s: Str)
    ensures forall k | 0 <= k < |s| :: IsSpace(Map(LowerPoint, s)[k]) <==> IsSpace(s[k])
  {
  }

  /** Lower-casing and stripping leaves the lower-cased core. */
  lemma {:induction false} FoldedIsCore(s: Str, i: nat, j: nat)
    requires IsCore(s, i, j)
    ensures StripBack(StripFront(Map(LowerPoint, s))) == Map(LowerPoint, s)[i..j]
  {
    hide StripFront;
    var lower := Map(LowerPoint, s);
    LowerKeepsSpaces(s);
    hide IsSpace, LowerPoint, Map;
    StripFrontIs(lower, i, j);
    if i < j {
      var tail := lower[i..];
      assert forall k | 0 <= k < |tail| :: tail[k] == lower[i + k];
      StripBackIs(tail, j - i);
      hide StripBack;
      assert lower[i..][..j - i] == lower[i..j];
    } else {
      assert lower[i..j] == [];
    }
  }

  ghost predicate SameLetter(c: CodePoint, d: CodePoint) {
    c == d || (65 <= c <= 90 && d == c + 32) || (65 <= d <= 90 && c == d + 32)
  }

  ghost predicate SameLetters(s: Str, t: Str) {
    |s| == |t| && forall m | 0 <= m < |s| :: SameLetter(s[m], t[m])
  }

  /** The two texts differ in the case of letters and in outer white space only. */
  ghost predicate SameClause(s: Str, t: Str) {
    exists i: nat, j: nat, k: nat, l: nat ::
      IsCore(s, i, j) && IsCore(t, k, l) && SameLetters(s[i..j], t[k..l])
  }

  ghost predicate NoCapitals(s: Str) {
    forall k | 0 <= k < |s| :: !(65 <= s[k] <= 90)
  }

  /** The text is the clause without outer white space and without capitals. */
  ghost predicate Folds(text: Str, clause: Str) {
    exists i: nat, j: nat :: IsCore(clause, i, j) && SameLetters(text, clause[i..j]) && NoCapitals(text)
  }

  /** What is printed as it stands. */
  function Verbatim(d: Default): Option<Str> {
    match d
    case NoDefault => Some(Ascii("None"))
    case TextDefault(text) => Some(text)
    case ClauseDefault(_) => None
    case OtherDefault(repr) => Some(repr)
  }

  /** When two defaults look alike. */
  ghost predicate SameDefault(d: Default, e: Default) {
    match (Verbatim(d), Verbatim(e))
    case (Some(s), Some(t)) => s == t
    case (None, None) => SameClause(d.text, e.text)
    case (Some(s), None) => Folds(s, e.text)
    case (None, Some(t)) => Folds(t, d.text)
  }

  lemma {:induction false} LettersFold(s: Str, t: Str)
    ensures Map(LowerPoint, s) == Map(LowerPoint, t) <==> SameLetters(s, t)
  {
    var a, b := Map(LowerPoint, s), Map(LowerPoint, t);
    if a == b {
      assert |s| == |a| == |t|;
      forall m | 0 <= m < |s|
        ensures SameLetter(s[m], t[m])
      {
        assert a[m] == b[m];
      }
    }
  }

  lemma {:induction false} CoresCollideIff(s: Str, i: nat, j: nat, t: Str, k: nat, l: nat)
    requires IsCore(s, i, j) && IsCore(t, k, l)
    ensures CanonicalDefault(ClauseDefault(s)) == CanonicalDefault(ClauseDefault(t)) <==> SameLetters(s[i..j], t[k..l])
  {
    hide StripFront, StripBack;
    FoldedIsCore(s, i, j);
    FoldedIsCore(t, k, l);
    LettersFold(s[i..j], t[k..l]);
    assert Map(LowerPoint, s)[i..j] == Map(LowerPoint, s[i..j]);
    assert Map(LowerPoint, t)[k..l] == Map(LowerPoint, t[k..l]);
  }

  lemma {:induction false} ClausesCollideIff(s: Str, t: Str)
    ensures CanonicalDefault(ClauseDefault(s)) == CanonicalDefault(ClauseDefault(t)) <==> SameClause(s, t)
  {
    hide StripFront, StripBack;
    var i, j := HasCore(s);
    var k, l := HasCore(t);
    CoresCollideIff(s, i, j, t, k, l);
    if a: nat, b: nat, c: nat, d: nat :| IsCore(s, a, b) && IsCore(t, c, d) && SameLetters(s[a..b], t[c..d]) {
      CoresCollideIff(s, a, b, t, c, d);
    }
  }

  lemma {:induction false} LowerOfSlice(s: Str, i: nat, j: nat)
    requires i <= j <= |s|
    ensures Map(LowerPoint, s)[i..j] == Map(LowerPoint, s[i..j])
  {
  }

  lemma {:induction false} TextIsLowerIff(text: Str, core: Str)
    ensures text == Map(LowerPoint, core) <==> SameLetters(text, core) && NoCapitals(text)
  {
    var lower := Map(LowerPoint, core);
    if SameLetters(text, core) && NoCapitals(text) {
      forall k | 0 <= k < |text|
        ensures text[k] == lower[k]
      {
        assert SameLetter(text[k], core[k]);
      }
    }
  }

  lemma {:induction false} CoreIsTextIff(text: Str, clause: Str, i: nat, j: nat)
    requires IsCore(clause, i, j)
    ensures text == CanonicalDefault(ClauseDefault(clause)) <==> SameLetters(text, clause[i..j]) && NoCapitals(text)
  {
    hide StripFront, StripBack;
    FoldedIsCore(clause, i, j);
    LowerOfSlice(clause, i, j);
    TextIsLowerIff(text, clause[i..j]);
  }

  lemma {:induction false} TextCollidesIff(text: Str, clause: Str)
    ensures text == CanonicalDefault(ClauseDefault(clause)) <==> Folds(text, clause)
  {
    hide StripFront, StripBack;
    var i, j := HasCore(clause);
    CoreIsTextIff(text, clause, i, j);
    if a: nat, b: nat :| IsCore(clause, a, b) && SameLetters(text, clause[a..b]) && NoCapitals(text) {
      CoreIsTextIff(text, clause, a, b);
    }
  }

  /**
   Which defaults are taken for one another: texts and representations that read the same, a missing
   default counting as the word None; clauses that differ in case and outer white space only; and a text
   that is such a clause in lower case.
   */
  lemma {:induction false} DefaultsCollideIff(d: Default, e: Default)
    ensures CanonicalDefault(d) == CanonicalDefault(e) <==> SameDefault(d, e)
  {
    hide StripFront, StripBack, SameClause, Folds;
    match (Verbatim(d), Verbatim(e))
    case (Some(_), Some(_)) =>
    case (None, None) => ClausesCollideIff(d.text, e.text);
    case (Some(s), None) => TextCollidesIff(s, e.text);
    case (None, Some(t)) => TextCollidesIff(t, d.text);
  }

  /** Two different clauses, and a clause and a text, that look alike. */
  lemma {:induction false} CapitalsCollide()
    ensures SameDefault(ClauseDefault(Ascii("now()")), ClauseDefault(Ascii("NOW()")))
    ensures SameDefault(TextDefault(Ascii("now()")), ClauseDefault(Ascii("NOW()")))
  {
    var low, cap := Ascii("now()"), Ascii("NOW()");
    assert IsCore(low, 0, 5) && IsCore(cap, 0, 5);
    assert low[0..5] == low && cap[0..5] == cap;
    assert SameLetters(low, cap);
    assert SameClause(low, cap);
    assert Folds(low, cap);
  }
}
