/** The pattern compiler: one left-to-right scan of the pattern that turns
    it into a list of rules. `\` escapes the next character, `.` is the
    wildcard, and `{n}` replaces the count of the most recent rule. The
    scan is a two-state machine: `Normal`, or `Collecting` the text of a
    `{n}` count. This module is the value-level specification; the class
    in module Engine runs the same machine by updating its fields. */
module Compiler {
  import opened Rules

  /** The scanner state: normal, or inside braces with the count text
      collected so far. */
  datatype State = Normal | Collecting(buffer: string)

  /** The ways compilation fails. */
  datatype CompileError =
    | DanglingEscape              // a `\` is the last character of the pattern
    | InvalidCount(text: string)  // the text between braces is not a decimal number
    | CountBelowOne(count: nat)   // the count between braces is 0
    | NoPrecedingRule             // a `{n}` before any rule was emitted

  datatype Option<T> = None | Some(value: T)

  datatype Result<T> = Ok(value: T) | Err(error: CompileError)

  /** What the scan has built so far: the state and the rules. */
  datatype Progress = Progress(state: State, rules: seq<Rule>)

  predicate IsDigit(c: char)
  {
    '0' <= c <= '9'
  }

  predicate AllDigits(s: string)
  {
    forall i :: 0 <= i < |s| ==> IsDigit(s[i])
  }

  /** The number a string of decimal digits denotes (most significant first). */
  function DigitsValue(s: string): nat
    requires AllDigits(s)
  {
    if s == [] then 0 else 10 * DigitsValue(s[..|s| - 1]) + (s[|s| - 1] as int - '0' as int)
  }

  /** Reading the collected count text as a number: it must be a non-empty
      string of ASCII digits. */
  function ParseCount(s: string): (r: Option<nat>)
    ensures r.Some? <==> s != [] && AllDigits(s)
    ensures r.Some? ==> r.value == DigitsValue(s)
  {
    if s != [] && AllDigits(s) then Some(DigitsValue(s)) else None
  }

  /** The decimal numeral of `n`, without leading zeros. */
  function Decimal(n: nat): (s: string)
    ensures s != [] && AllDigits(s)
  {
    if n < 10 then [('0' as int + n) as char]
    else Decimal(n / 10) + [('0' as int + n % 10) as char]
  }

  /** Reading back the numeral of `n` gives `n`. */
  lemma {:induction false} ParseCountDecimal(n: nat)
    ensures ParseCount(Decimal(n)) == Some(n)
  {
    var s := Decimal(n);
    if n < 10 {
      assert s[..|s| - 1] == [];
    } else {
      ParseCountDecimal(n / 10);
      assert s[..|s| - 1] == Decimal(n / 10);
      assert DigitsValue(s) == 10 * (n / 10) + n % 10;
    }
  }

  /** One character of the scan, after escape handling: `ch` is the
      character and `escaping` says whether a `\` preceded it. */
  function Step(st: State, rules: seq<Rule>, ch: char, escaping: bool): (r: Result<Progress>)
    // normal state: `{` opens a count, `.` adds a wildcard, anything else (and
    // anything escaped) adds a literal; none of these fails
    ensures st.Normal? && ch == '{' && !escaping ==> r == Ok(Progress(Collecting([]), rules))
    ensures st.Normal? && ch == '.' && !escaping ==> r == Ok(Progress(Normal, rules + [Rule(Any, 1)]))
    ensures st.Normal? && (escaping || (ch != '{' && ch != '.')) ==>
              r == Ok(Progress(Normal, rules + [Rule(Exact(ch), 1)]))
    // inside braces every character but `}` (escaped or not) is collected
    ensures st.Collecting? && ch != '}' ==> r == Ok(Progress(Collecting(st.buffer + [ch]), rules))
    // `}` (escaped or not) closes: it succeeds exactly when the count parses,
    // is at least 1 and there is a rule to apply it to
    ensures st.Collecting? && ch == '}' ==>
              (r.Ok? <==> ParseCount(st.buffer).Some? && ParseCount(st.buffer).value >= 1 && rules != [])
    ensures st.Collecting? && ch == '}' && r.Ok? ==>
              r.value == Progress(Normal, SetLastCount(rules, ParseCount(st.buffer).value))
    ensures st.Collecting? && ch == '}' && ParseCount(st.buffer).None? ==> r == Err(InvalidCount(st.buffer))
    ensures st.Collecting? && ch == '}' && ParseCount(st.buffer) == Some(0) ==> r == Err(CountBelowOne(0))
    ensures st.Collecting? && ch == '}' && ParseCount(st.buffer).Some? && ParseCount(st.buffer).value >= 1 && rules == [] ==>
              r == Err(NoPrecedingRule)
    ensures r.Ok? && AllPositive(rules) ==> AllPositive(r.value.rules)
  {
    match st
    case Normal =>
      if ch == '{' && !escaping then Ok(Progress(Collecting([]), rules))
      else if ch == '.' && !escaping then Ok(Progress(Normal, rules + [Rule(AcceptAll(), 1)]))
      else Ok(Progress(Normal, rules + [Rule(AcceptChar(ch), 1)]))
    case Collecting(buffer) =>
      if ch == '}' then
        match ParseCount(buffer)
        case None => Err(InvalidCount(buffer))
        case Some(length) =>
          if length < 1 then Err(CountBelowOne(length))
          else if rules == [] then Err(NoPrecedingRule)
          else Ok(Progress(Normal, SetLastCount(rules, length)))
      else Ok(Progress(Collecting(buffer + [ch]), rules))
  }

  /** The scan of the rest `p` of a pattern from state `st` with `rules`
      already built. A `\` takes the next character with it; a `\` with
      nothing after it fails. The scan stops at the first error. */
  function Scan(p: string, st: State, rules: seq<Rule>): (r: Result<Progress>)
    ensures r.Ok? && AllPositive(rules) ==> AllPositive(r.value.rules)
    decreases |p|
  {
    if p == [] then Ok(Progress(st, rules))
    else if p[0] == '\\' && |p| == 1 then Err(DanglingEscape)
    else
      var escaping := p[0] == '\\';
      var ch := if escaping then p[1] else p[0];
      var rest := if escaping then p[2..] else p[1..];
      match Step(st, rules, ch, escaping)
      case Err(e) => Err(e)
      case Ok(next) => Scan(rest, next.state, next.rules)
  }

  /** Compiling a pattern: scan it from the normal state with no rules. The
      final state is not examined, so an unterminated `{...` is dropped. */
  function Compile(pattern: string): (r: Result<seq<Rule>>)
    ensures r.Ok? ==> AllPositive(r.value)
  {
    match Scan(pattern, Normal, [])
    case Err(e) => Err(e)
    case Ok(done) => Ok(done.rules)
  }

  /** Text that, inside braces, is collected as it is: no `\` and no `}`. */
  predicate IsCountText(s: string)
  {
    forall i :: 0 <= i < |s| ==> s[i] != '\\' && s[i] != '}'
  }

  /** A pattern with no escape, no wildcard and no brace. */
  predicate IsLiteral(s: string)
  {
    forall i :: 0 <= i < |s| ==> s[i] != '\\' && s[i] != '.' && s[i] != '{'
  }

  /** Scanning is compositional: once a prefix scans without error, the
      rest continues from the state and rules the prefix left. */
  lemma {:induction false} ScanAppend(p1: string, p2: string, st: State, rules: seq<Rule>)
    requires Scan(p1, st, rules).Ok?
    ensures Scan(p1 + p2, st, rules)
            == Scan(p2, Scan(p1, st, rules).value.state, Scan(p1, st, rules).value.rules)
    decreases |p1|
  {
    if p1 == [] {
      assert p1 + p2 == p2;
    } else {
      var p := p1 + p2;
      assert p[0] == p1[0];
      var escaping := p1[0] == '\\';
      var ch := if escaping then p1[1] else p1[0];
      var rest := if escaping then p1[2..] else p1[1..];
      if escaping {
        assert p[1] == p1[1];
        assert p[2..] == rest + p2;
      } else {
        assert p[1..] == rest + p2;
      }
      match Step(st, rules, ch, escaping)
      case Ok(next) =>
        ScanAppend(rest, p2, next.state, next.rules);
    }
  }

  /** Inside braces, text without `\` and `}` only extends the buffer. */
  lemma {:induction false} ScanCollects(d: string, buffer: string, rules: seq<Rule>)
    requires IsCountText(d)
    ensures Scan(d, Collecting(buffer), rules) == Ok(Progress(Collecting(buffer + d), rules))
    decreases |d|
  {
    if d == [] {
      assert buffer + d == buffer;
    } else {
      ScanCollects(d[1..], buffer + [d[0]], rules);
      assert buffer + [d[0]] + d[1..] == buffer + d;
    }
  }

  /** From the normal state, `{` followed by count text only collects it. */
  lemma OpenBraceCollects(d: string, rules: seq<Rule>)
    requires IsCountText(d)
    ensures Scan("{" + d, Normal, rules) == Ok(Progress(Collecting(d), rules))
  {
    assert Scan("{", Normal, rules) == Ok(Progress(Collecting([]), rules));
    ScanCollects(d, [], rules);
    assert [] + d == d;
    ScanAppend("{", d, Normal, rules);
  }

  /** What `{d}` does from the normal state: it fails if `d` is not a
      number, if the number is 0 or if no rule precedes it, and otherwise
      replaces the count of the last rule, after which the scan goes on. */
  lemma BraceSetsLastCount(rules: seq<Rule>, d: string, q: string)
    requires IsCountText(d)
    ensures Scan("{" + d + "}" + q, Normal, rules)
            == match ParseCount(d)
               case None => Err(InvalidCount(d))
               case Some(n) =>
                 if n < 1 then Err(CountBelowOne(n))
                 else if rules == [] then Err(NoPrecedingRule)
                 else Scan(q, Normal, SetLastCount(rules, n))
  {
    OpenBraceCollects(d, rules);
    ScanAppend("{" + d, "}" + q, Normal, rules);
    assert "{" + d + "}" + q == ("{" + d) + ("}" + q);
    var p := "}" + q;
    assert p[0] == '}' && p[1..] == q;
  }

  /** A `}` written escaped inside braces closes them just like `}`. */
  lemma EscapedBraceCloses(rules: seq<Rule>, d: string, q: string)
    requires IsCountText(d)
    ensures Scan("{" + d + "\\}" + q, Normal, rules) == Scan("{" + d + "}" + q, Normal, rules)
  {
    OpenBraceCollects(d, rules);
    ScanAppend("{" + d, "\\}" + q, Normal, rules);
    ScanAppend("{" + d, "}" + q, Normal, rules);
    assert "{" + d + "\\}" + q == ("{" + d) + ("\\}" + q);
    assert "{" + d + "}" + q == ("{" + d) + ("}" + q);
    var p := "\\}" + q;
    assert p[0] == '\\' && p[1] == '}' && p[2..] == q;
    var p' := "}" + q;
    assert p'[0] == '}' && p'[1..] == q;
  }

  /** Two counts in a row on the same rule: the second one wins, so the
      rule gets count `m`, not `n + m` or `n * m`. */
  lemma LastWriteWins(p: string, rules: seq<Rule>, d1: string, n: nat, d2: string, m: nat)
    requires Scan(p, Normal, []) == Ok(Progress(Normal, rules)) && rules != []
    requires ParseCount(d1) == Some(n) && n >= 1
    requires ParseCount(d2) == Some(m) && m >= 1
    ensures Compile(p + "{" + d1 + "}" + "{" + d2 + "}") == Ok(SetLastCount(rules, m))
  {
    var first := SetLastCount(rules, n);
    assert IsCountText(d1) && IsCountText(d2) by {
      assert AllDigits(d1) && AllDigits(d2);
    }
    var second := "{" + d2 + "}";
    var rest := "{" + d1 + "}" + second;
    BraceSetsLastCount(first, d2, "");
    assert second + "" == second;
    assert Scan(second, Normal, first) == Ok(Progress(Normal, SetLastCount(first, m)));
    BraceSetsLastCount(rules, d1, second);
    assert Scan(rest, Normal, rules) == Scan(second, Normal, first);
    ScanAppend(p, rest, Normal, []);
    assert p + "{" + d1 + "}" + "{" + d2 + "}" == p + rest;
    assert SetLastCount(first, m) == SetLastCount(rules, m);
  }

  /** An escaped character adds a single-character literal rule, whatever
      the character (`.`, `{` and `\` included). */
  lemma EscapeYieldsLiteral(p: string, rules: seq<Rule>, c: char, q: string)
    requires Scan(p, Normal, []) == Ok(Progress(Normal, rules))
    ensures Scan(p + ['\\', c] + q, Normal, []) == Scan(q, Normal, rules + [Rule(Exact(c), 1)])
  {
    ScanAppend(p, ['\\', c] + q, Normal, []);
    assert p + ['\\', c] + q == p + (['\\', c] + q);
    var s := ['\\', c] + q;
    assert s[0] == '\\' && s[1] == c && s[2..] == q;
  }

  /** A pattern whose last character is an unpaired `\` does not compile. */
  lemma TrailingEscapeFails(p: string)
    requires Scan(p, Normal, []).Ok?
    ensures Compile(p + ['\\']) == Err(DanglingEscape)
  {
    ScanAppend(p, ['\\'], Normal, []);
  }

  /** A `{...` never closed is dropped: the rules are those before it. */
  lemma UnterminatedBraceDropped(p: string, rules: seq<Rule>, d: string)
    requires Scan(p, Normal, []) == Ok(Progress(Normal, rules))
    requires IsCountText(d)
    ensures Compile(p + "{" + d) == Ok(rules)
    ensures Scan(p + "{" + d, Normal, []) == Ok(Progress(Collecting(d), rules))
  {
    OpenBraceCollects(d, rules);
    ScanAppend(p, "{" + d, Normal, []);
    assert p + "{" + d == p + ("{" + d);
  }

  /** A pattern of plain characters compiles to one literal rule per
      character, each with count 1. */
  lemma {:induction false} LiteralScan(s: string, rules: seq<Rule>)
    requires IsLiteral(s)
    ensures Scan(s, Normal, rules) == Ok(Progress(Normal, rules + LiteralRules(s)))
    decreases |s|
  {
    if s == [] {
      assert rules + LiteralRules(s) == rules;
    } else {
      LiteralScan(s[1..], rules + [Rule(Exact(s[0]), 1)]);
      assert rules + [Rule(Exact(s[0]), 1)] + LiteralRules(s[1..]) == rules + LiteralRules(s);
    }
  }

  /** A run of plain characters inside a pattern adds its literal rules. */
  lemma ScanLiteralRun(s: string, q: string, rules: seq<Rule>)
    requires IsLiteral(s)
    ensures Scan(s + q, Normal, rules) == Scan(q, Normal, rules + LiteralRules(s))
  {
    LiteralScan(s, rules);
    ScanAppend(s, q, Normal, rules);
  }

  /** A plain character followed by `{d}`: one literal rule whose count is
      the number `d` denotes. */
  lemma CountedLiteral(c: char, d: string, n: nat, q: string, rules: seq<Rule>)
    requires c != '\\' && c != '.' && c != '{'
    requires ParseCount(d) == Some(n) && n >= 1
    ensures Scan([c] + "{" + d + "}" + q, Normal, rules) == Scan(q, Normal, rules + [Rule(Exact(c), n)])
  {
    assert IsCountText(d) by {
      assert AllDigits(d);
    }
    var s := [c] + "{" + d + "}" + q;
    assert s[0] == c && s[1..] == "{" + d + "}" + q;
    BraceSetsLastCount(rules + [Rule(Exact(c), 1)], d, q);
    assert SetLastCount(rules + [Rule(Exact(c), 1)], n) == rules + [Rule(Exact(c), n)];
  }

  /** An escaped character followed by `{d}`: one literal rule for that
      character whose count is the number `d` denotes. */
  lemma CountedEscape(c: char, d: string, n: nat, q: string, rules: seq<Rule>)
    requires ParseCount(d) == Some(n) && n >= 1
    ensures Scan(['\\', c] + "{" + d + "}" + q, Normal, rules) == Scan(q, Normal, rules + [Rule(Exact(c), n)])
  {
    assert IsCountText(d) by {
      assert AllDigits(d);
    }
    var s := ['\\', c] + "{" + d + "}" + q;
    assert s[0] == '\\' && s[1] == c && s[2..] == "{" + d + "}" + q;
    BraceSetsLastCount(rules + [Rule(Exact(c), 1)], d, q);
    assert SetLastCount(rules + [Rule(Exact(c), 1)], n) == rules + [Rule(Exact(c), n)];
  }

  /** An unescaped `.` adds a wildcard rule. */
  lemma ScanWildcard(q: string, rules: seq<Rule>)
    ensures Scan("." + q, Normal, rules) == Scan(q, Normal, rules + [Rule(Any, 1)])
  {
  }

  /** The whole-pattern form of `LiteralScan`. */
  lemma LiteralCompile(s: string)
    requires IsLiteral(s)
    ensures Compile(s) == Ok(LiteralRules(s))
  {
    LiteralScan(s, []);
    assert [] + LiteralRules(s) == LiteralRules(s);
  }
}
