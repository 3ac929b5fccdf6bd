/** Properties of the whole pipeline, compiler then matcher, and the
    concrete cases the program checks about itself. */
module Properties {
  import opened Rules
  import opened Compiler
  import opened Matching
  import opened Engine

  /** A pattern with no `\`, `.` or `{` accepts exactly itself. */
  lemma LiteralPatternIsEquality(pattern: string, text: string)
    requires IsLiteral(pattern)
    ensures Compile(pattern).Ok?
    ensures Matches(Compile(pattern).value, text) <==> text == pattern
  {
    LiteralCompile(pattern);
    LiteralMatchesIffEqual(pattern, text);
  }

  /** Scanning a leading plain `a`. */
  lemma LeadingA(q: string)
    ensures Scan("a" + q, Normal, []) == Scan(q, Normal, [Rule(Exact('a'), 1)])
  {
    ScanLiteralRun("a", q, []);
    assert [] + LiteralRules("a") == [Rule(Exact('a'), 1)];
  }

  // The pattern `\.{5}`: five literal dots.

  lemma EscapedDotCompiles()
    ensures Compile("\\.{5}") == Ok([Rule(Exact('.'), 5)])
  {
    assert "\\.{5}" == ['\\', '.'] + "{" + "5" + "}" + "";
    assert ParseCount("5") == Some(5);
    CountedEscape('.', "5", 5, "", []);
    assert [] + [Rule(Exact('.'), 5)] == [Rule(Exact('.'), 5)];
  }

  lemma EscapedDotMatches()
    ensures Matches([Rule(Exact('.'), 5)], ".....")
    ensures !Matches([Rule(Exact('.'), 5)], "aaaaa")
  {
    assert Expand([Rule(Exact('.'), 5)])[0] == Exact('.');
  }

  // The pattern `a{5}.c{2}`: five `a`, any character, two `c`.

  lemma WildcardCompiles()
    ensures Compile("a{5}.c{2}") == Ok([Rule(Exact('a'), 5), Rule(Any, 1), Rule(Exact('c'), 2)])
  {
    var a5 := [Rule(Exact('a'), 5)];
    var r2 := a5 + [Rule(Any, 1)];
    var r3 := r2 + [Rule(Exact('c'), 2)];
    var q3 := ['c'] + "{" + "2" + "}" + "";
    var q2 := "." + q3;
    assert "a{5}.c{2}" == ['a'] + "{" + "5" + "}" + q2;
    assert ParseCount("5") == Some(5) && ParseCount("2") == Some(2);
    CountedLiteral('a', "5", 5, q2, []);
    assert [] + [Rule(Exact('a'), 5)] == a5;
    ScanWildcard(q3, a5);
    CountedLiteral('c', "2", 2, "", r2);
    assert Scan("", Normal, r3) == Ok(Progress(Normal, r3));
    assert r3 == [Rule(Exact('a'), 5), Rule(Any, 1), Rule(Exact('c'), 2)];
  }

  lemma WildcardMatches()
    ensures Matches([Rule(Exact('a'), 5), Rule(Any, 1), Rule(Exact('c'), 2)], "aaaaa cc")
    ensures Matches([Rule(Exact('a'), 5), Rule(Any, 1), Rule(Exact('c'), 2)], "aaaaabcc")
    ensures !Matches([Rule(Exact('a'), 5), Rule(Any, 1), Rule(Exact('c'), 2)], "aaaaa cca")
  {
  }

  // The pattern `a{5} c{2}`: as above with a literal space in the middle.

  lemma LiteralSpaceCompiles()
    ensures Compile("a{5} c{2}") == Ok([Rule(Exact('a'), 5), Rule(Exact(' '), 1), Rule(Exact('c'), 2)])
  {
    var a5 := [Rule(Exact('a'), 5)];
    var r2 := a5 + [Rule(Exact(' '), 1)];
    var r3 := r2 + [Rule(Exact('c'), 2)];
    var q3 := ['c'] + "{" + "2" + "}" + "";
    var q2 := " " + q3;
    assert "a{5} c{2}" == ['a'] + "{" + "5" + "}" + q2;
    assert ParseCount("5") == Some(5) && ParseCount("2") == Some(2);
    CountedLiteral('a', "5", 5, q2, []);
    assert [] + [Rule(Exact('a'), 5)] == a5;
    ScanLiteralRun(" ", q3, a5);
    assert a5 + LiteralRules(" ") == r2;
    CountedLiteral('c', "2", 2, "", r2);
    assert Scan("", Normal, r3) == Ok(Progress(Normal, r3));
    assert r3 == [Rule(Exact('a'), 5), Rule(Exact(' '), 1), Rule(Exact('c'), 2)];
  }

  lemma LiteralSpaceMatches()
    ensures Matches([Rule(Exact('a'), 5), Rule(Exact(' '), 1), Rule(Exact('c'), 2)], "aaaaa cc")
    ensures !Matches([Rule(Exact('a'), 5), Rule(Exact(' '), 1), Rule(Exact('c'), 2)], "aaaaabcc")
    ensures !Matches([Rule(Exact('a'), 5), Rule(Exact(' '), 1), Rule(Exact('c'), 2)], "aaaaa cca")
  {
    var rules := [Rule(Exact('a'), 5), Rule(Exact(' '), 1), Rule(Exact('c'), 2)];
    assert Expand(rules) == [Exact('a'), Exact('a'), Exact('a'), Exact('a'), Exact('a'), Exact(' '), Exact('c'), Exact('c')];
    assert !Accepts(Expand(rules)[5], "aaaaabcc"[5]);
  }

  // Patterns that do not compile.

  lemma ZeroCountFails()
    ensures Compile("a{0}") == Err(CountBelowOne(0))
  {
    var a1 := [Rule(Exact('a'), 1)];
    assert "a{0}" == "a" + "{0}";
    LeadingA("{0}");
    assert ParseCount("0") == Some(0);
    BraceSetsLastCount(a1, "0", "");
    assert "{" + "0" + "}" + "" == "{0}";
    assert Scan("{0}", Normal, a1) == Err(CountBelowOne(0));
  }

  lemma NonNumericCountFails()
    ensures Compile("a{x}") == Err(InvalidCount("x"))
    ensures Compile("a{}") == Err(InvalidCount(""))
  {
    LeadingA("{x}");
    LeadingA("{}");
    assert ParseCount("x") == None && ParseCount("") == None;
    BraceSetsLastCount([Rule(Exact('a'), 1)], "x", "");
    assert "{" + "x" + "}" + "" == "{x}";
    BraceSetsLastCount([Rule(Exact('a'), 1)], "", "");
    assert "{" + "" + "}" + "" == "{}";
  }

  /** Leading zeros in a count are read as Python's `int` reads them. */
  lemma LeadingZeroCount()
    ensures ParseCount("05") == Some(5)
    ensures ParseCount("000") == Some(0)
  {
    assert "05"[..1] == "0" && "0"[..0] == [];
    assert DigitsValue("05") == 10 * DigitsValue("0") + 5;
    assert "000"[..2] == "00" && "00"[..1] == "0";
    assert DigitsValue("000") == 10 * DigitsValue("00");
  }

  lemma CountWithoutRuleFails()
    ensures Compile("{3}") == Err(NoPrecedingRule)
  {
    assert ParseCount("3") == Some(3);
    BraceSetsLastCount([], "3", "");
    assert "{" + "3" + "}" + "" == "{3}";
  }

  lemma DanglingEscapeFails()
    ensures Compile("a\\") == Err(DanglingEscape)
  {
  }

  // The brace rules on concrete patterns.

  lemma SecondCountWins()
    ensures Compile("a{2}{3}") == Ok([Rule(Exact('a'), 3)])
  {
    LeadingA("");
    assert "a" + "" == "a";
    assert ParseCount("2") == Some(2) && ParseCount("3") == Some(3);
    LastWriteWins("a", [Rule(Exact('a'), 1)], "2", 2, "3", 3);
    assert "a" + "{" + "2" + "}" + "{" + "3" + "}" == "a{2}{3}";
  }

  lemma UnclosedCountIgnored()
    ensures Compile("a{5") == Ok([Rule(Exact('a'), 1)])
  {
    LeadingA("");
    assert "a" + "" == "a";
    UnterminatedBraceDropped("a", [Rule(Exact('a'), 1)], "5");
    assert "a" + "{" + "5" == "a{5";
  }

  lemma EscapedCloseSetsCount(rules: seq<Rule>)
    requires rules != []
    ensures Scan("{5\\}", Normal, rules) == Ok(Progress(Normal, SetLastCount(rules, 5)))
  {
    EscapedBraceCloses(rules, "5", "");
    assert "{" + "5" + "\\}" + "" == "{5\\}";
    assert ParseCount("5") == Some(5);
    BraceSetsLastCount(rules, "5", "");
  }

  lemma EscapedCloseStillCloses()
    ensures Compile("a{5\\}") == Ok([Rule(Exact('a'), 5)])
  {
    LeadingA("{5\\}");
    EscapedCloseSetsCount([Rule(Exact('a'), 1)]);
  }

  /** The checks the program runs on itself, through the matcher object:
      the pattern `\.{5}`. */
  method DemoEscapedDot()
  {
    EscapedDotCompiles();
    EscapedDotMatches();
    var r := Matcher.Create("\\.{5}");
    var m := r.value;
    var b := m.Match(".....");
    assert b;
    b := m.Match("aaaaa");
    assert !b;
  }

  /** The same for the pattern `a{5}.c{2}`. */
  method DemoWildcard()
  {
    WildcardCompiles();
    WildcardMatches();
    var r := Matcher.Create("a{5}.c{2}");
    var m := r.value;
    var b := m.Match("aaaaa cc");
    assert b;
    b := m.Match("aaaaabcc");
    assert b;
    b := m.Match("aaaaa cca");
    assert !b;
  }

  /** The same for the pattern `a{5} c{2}`. */
  method DemoLiteralSpace()
  {
    LiteralSpaceCompiles();
    LiteralSpaceMatches();
    var r := Matcher.Create("a{5} c{2}");
    var m := r.value;
    var b := m.Match("aaaaa cc");
    assert b;
    b := m.Match("aaaaabcc");
    assert !b;
    b := m.Match("aaaaa cca");
    assert !b;
  }

  /** An unclosed count is dropped, and the object is left collecting it. */
  method DemoUnclosedCount()
  {
    LeadingA("");
    assert "a" + "" == "a";
    UnterminatedBraceDropped("a", [Rule(Exact('a'), 1)], "5");
    assert "a" + "{" + "5" == "a{5";
    var r := Matcher.Create("a{5");
    var m := r.value;
    assert m.rules == [Rule(Exact('a'), 1)];
    assert m.state == 1 && m.stateBuffer == "5";
  }
}
