/** What it means for a text to match a list of rules, stated without the
    matcher's cursor: the rules, each repeated `count` times, spell out one
    predicate per position, and a text matches when it has exactly that
    many characters and each satisfies the predicate at its position. The
    match is thus anchored at both ends. */
module Matching {
  import opened Rules

  /** The sum of the counts of all rules. */
  function TotalCount(rules: seq<Rule>): nat
  {
    if rules == [] then 0 else rules[0].count + TotalCount(rules[1..])
  }

  /** `n` copies of `p`. */
  function Repeat(p: Pred, n: nat): (r: seq<Pred>)
    ensures |r| == n
    ensures forall i :: 0 <= i < n ==> r[i] == p
  {
    if n == 0 then [] else [p] + Repeat(p, n - 1)
  }

  /** The predicate that applies at each text position: rule by rule, each
      predicate as many times as its count. */
  function Expand(rules: seq<Rule>): (r: seq<Pred>)
    ensures |r| == TotalCount(rules)
  {
    if rules == [] then [] else Repeat(rules[0].pred, rules[0].count) + Expand(rules[1..])
  }

  /** A text matches when its length is the sum of the counts and every
      character satisfies the predicate of the rule covering its position. */
  predicate Matches(rules: seq<Rule>, text: string)
  {
    |text| == |Expand(rules)| &&
    forall i :: 0 <= i < |text| ==> Accepts(Expand(rules)[i], text[i])
  }

  /** Expanding a concatenation expands each part. */
  lemma {:induction false} ExpandAppend(a: seq<Rule>, b: seq<Rule>)
    ensures Expand(a + b) == Expand(a) + Expand(b)
    decreases |a|
  {
    if a == [] {
      assert a + b == b;
    } else {
      assert (a + b)[0] == a[0] && (a + b)[1..] == a[1..] + b;
      ExpandAppend(a[1..], b);
    }
  }

  /** The predicates rule `k` contributes start right after those of the
      rules before it. */
  lemma ExpandAt(rules: seq<Rule>, k: nat, j: nat)
    requires k < |rules| && j < rules[k].count
    ensures |Expand(rules[..k])| + j < |Expand(rules)|
    ensures Expand(rules)[|Expand(rules[..k])| + j] == rules[k].pred
  {
    assert rules == rules[..k] + rules[k..];
    ExpandAppend(rules[..k], rules[k..]);
    assert rules[k..][0] == rules[k] && rules[k..][1..] == rules[k + 1..];
  }

  /** Anchoring: a text whose length differs from the sum of the counts
      never matches. */
  lemma AnchoredAtBothEnds(rules: seq<Rule>, text: string)
    requires TotalCount(rules) != |text|
    ensures !Matches(rules, text)
  {
  }

  /** A matching text followed by anything more no longer matches, even
      though its prefix does. */
  lemma NoTrailingText(rules: seq<Rule>, text: string, extra: string)
    requires Matches(rules, text) && extra != []
    ensures !Matches(rules, text + extra)
  {
  }

  /** Literal rules match exactly the text they were built from. */
  lemma {:induction false} ExpandLiteral(s: string)
    ensures Expand(LiteralRules(s)) == seq(|s|, i requires 0 <= i < |s| => Exact(s[i]))
    decreases |s|
  {
    if s != [] {
      var rules := LiteralRules(s);
      assert rules[0] == Rule(Exact(s[0]), 1) && rules[1..] == LiteralRules(s[1..]);
      ExpandLiteral(s[1..]);
    }
  }

  lemma LiteralMatchesIffEqual(s: string, text: string)
    ensures Matches(LiteralRules(s), text) <==> text == s
  {
    ExpandLiteral(s);
    if Matches(LiteralRules(s), text) {
      assert forall i :: 0 <= i < |s| ==> text[i] == s[i] by {
        forall i | 0 <= i < |s| ensures text[i] == s[i] {
          assert Accepts(Expand(LiteralRules(s))[i], text[i]);
        }
      }
    }
  }
}
