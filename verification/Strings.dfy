/** Searching text. */
module Strings {

  predicate Contains(s: string, part: string) {
    part <= s || (s != "" && Contains(s[1..], part))
  }

  ghost predicate OccursAt(s: string, part: string, k: nat) {
    k + |part| <= |s| && s[k..k + |part|] == part
  }

  lemma OccursBehind(s: string, part: string, k: nat)
    requires s != ""
    ensures OccursAt(s, part, k + 1) <==> OccursAt(s[1..], part, k)
  {
    if k + 1 + |part| <= |s| {
      assert s[k + 1..k + 1 + |part|] == s[1..][k..k + |part|];
    }
  }

  /** A text contains another exactly if that stands at some place in it. */
  lemma {:induction false} ContainsIff(s: string, part: string)
    ensures Contains(s, part) <==> exists k: nat :: OccursAt(s, part, k)
  {
    assert part <= s <==> OccursAt(s, part, 0);
    if s == "" {
      assert forall k: nat :: OccursAt(s, part, k) ==> k == 0;
    } else {
      hide OccursAt;
      ContainsIff(s[1..], part);
      if k: nat :| OccursAt(s[1..], part, k) {
        OccursBehind(s, part, k);
      }
      if k: nat :| OccursAt(s, part, k) {
        if k > 0 {
          OccursBehind(s, part, k - 1);
        }
      }
    }
  }
}
