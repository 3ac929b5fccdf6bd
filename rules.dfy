/** Character predicates and match rules, the values the compiler produces
    and the matcher consumes. A predicate is one of the two kinds the
    program builds (a literal character or the wildcard), kept as a tagged
    value instead of a closure. */
module Rules {

  /** `Exact(c)` accepts only `c`; `Any` accepts every character. */
  datatype Pred = Exact(c: char) | Any

  /** A rule: the next `count` characters must each satisfy `pred`. */
  datatype Rule = Rule(pred: Pred, count: nat)

  /** Applying a predicate to one character. */
  predicate Accepts(p: Pred, ch: char)
  {
    match p
    case Exact(c) => ch == c
    case Any => true
  }

  /** The predicate built for a literal character. */
  function AcceptChar(c: char): (p: Pred)
    ensures forall ch :: Accepts(p, ch) <==> ch == c
  {
    Exact(c)
  }

  /** The predicate built for the wildcard. */
  function AcceptAll(): (p: Pred)
    ensures forall ch :: Accepts(p, ch)
  {
    Any
  }

  /** Every rule repeats its predicate at least once. */
  predicate AllPositive(rules: seq<Rule>)
  {
    forall i :: 0 <= i < |rules| ==> rules[i].count >= 1
  }

  /** The rules of a pattern made of literal characters only: one
      single-character literal rule per character. */
  function LiteralRules(s: string): (rules: seq<Rule>)
    ensures |rules| == |s|
    ensures forall i :: 0 <= i < |s| ==> rules[i] == Rule(Exact(s[i]), 1)
  {
    if s == [] then [] else [Rule(Exact(s[0]), 1)] + LiteralRules(s[1..])
  }

  /** `rules` with the count of its last rule replaced by `n`; the
      predicate of that rule and every earlier rule are kept. */
  function SetLastCount(rules: seq<Rule>, n: nat): (r: seq<Rule>)
    requires rules != []
    ensures |r| == |rules|
    ensures r[..|r| - 1] == rules[..|rules| - 1]
    ensures r[|r| - 1].pred == rules[|rules| - 1].pred && r[|r| - 1].count == n
  {
    rules[..|rules| - 1] + [Rule(rules[|rules| - 1].pred, n)]
  }
}
