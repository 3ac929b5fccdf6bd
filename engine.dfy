/** The matcher object. Building it runs the compiler state machine over
    the pattern, updating the object's fields one character at a time; the
    finished rule list is then used, read-only, by every `Match` call.
    `Feed`, `GetRules`, `Create` and `Match` are proved against the
    value-level definitions of modules Compiler and Matching; the
    constructor and `NextChar` only set up and advance the fields. */
module Engine {
  import opened Rules
  import opened Compiler
  import opened Matching

  class Matcher {
    const pattern: string
    /** 0: normal; 1: collecting the text of a `{n}` count. */
    var state: int
    /** The count text collected so far while `state` is 1. */
    var stateBuffer: string
    /** How many characters of `pattern` have been read. */
    var position: nat
    var rules: seq<Rule>

    ghost predicate Valid()
      reads this
    {
      position <= |pattern| &&
      (state == 0 || state == 1) &&
      (state == 0 ==> stateBuffer == [])
    }

    /** The scanner state the two fields `state` and `stateBuffer` stand for. */
    ghost function Phase(): State
      reads this
    {
      if state == 0 then Normal else Collecting(stateBuffer)
    }

    /** Sets up an empty matcher for `pattern`; `Create` then compiles it. */
    constructor (pattern: string)
      ensures Valid() && this.pattern == pattern
      ensures state == 0 && stateBuffer == [] && position == 0 && rules == []
    {
      this.pattern := pattern;
      state := 0;
      stateBuffer := [];
      position := 0;
      rules := [];
    }

    /** The next pattern character, or `None` once the pattern is used up. */
    method NextChar() returns (c: Option<char>)
      requires position <= |pattern|
      modifies this`position
      ensures old(position) < |pattern| ==> c == Some(pattern[old(position)]) && position == old(position) + 1
      ensures old(position) == |pattern| ==> c == None && position == old(position)
    {
      if position < |pattern| {
        c := Some(pattern[position]);
        position := position + 1;
      } else {
        c := None;
      }
    }

    /** One pass of the loop body of `GetRules` after escape handling:
        the state machine's reaction to character `ch`. */
    method Feed(ch: char, escaping: bool) returns (err: Option<CompileError>)
      requires Valid()
      modifies this`state, this`stateBuffer, this`rules
      ensures Valid()
      ensures err.None? ==> Step(old(Phase()), old(rules), ch, escaping) == Ok(Progress(Phase(), rules))
      ensures err.Some? ==> Step(old(Phase()), old(rules), ch, escaping) == Err(err.value)
    {
      if state == 0 {
        if ch == '{' && !escaping {
          state := 1;
        } else if ch == '.' && !escaping {
          rules := rules + [Rule(AcceptAll(), 1)];
        } else {
          rules := rules + [Rule(AcceptChar(ch), 1)];
        }
      } else if state == 1 {
        if ch == '}' {
          var parsed := ParseCount(stateBuffer);
          if parsed.None? {
            return Some(InvalidCount(stateBuffer));
          }
          var length := parsed.value;
          if length < 1 {
            return Some(CountBelowOne(length));
          }
          if rules == [] {
            return Some(NoPrecedingRule);
          }
          var lastRule := rules[|rules| - 1].pred;
          rules := rules[..|rules| - 1];
          rules := rules + [Rule(lastRule, length)];
          stateBuffer := [];
          state := 0;
        } else {
          stateBuffer := stateBuffer + [ch];
        }
      }
      return None;
    }

    /** Runs the compiler state machine over the whole pattern, appending
        rules and rewriting the last one on each `}`. It stops at the first
        error; on success `rules` is the compiled pattern. */
    method GetRules() returns (err: Option<CompileError>)
      requires Valid() && position == 0 && state == 0 && rules == []
      modifies this
      ensures Valid()
      ensures err.None? <==> Compile(pattern).Ok?
      ensures err.None? ==> Compile(pattern) == Ok(rules) && AllPositive(rules)
      ensures err.None? ==> position == |pattern| && Phase() == Scan(pattern, Normal, []).value.state
      ensures err.Some? ==> Compile(pattern) == Err(err.value)
    {
      ghost var goal := Scan(pattern, Normal, []);
      assert pattern[0..] == pattern;
      var c := NextChar();
      while c.Some?
        invariant Valid()
        invariant c.Some? ==> 0 < position && c.value == pattern[position - 1]
        invariant c.None? ==> position == |pattern|
        invariant Scan(if c.Some? then pattern[position - 1..] else [], Phase(), rules) == goal
        decreases |pattern| - position + (if c.Some? then 1 else 0)
      {
        ghost var rest := pattern[position - 1..];
        ghost var before, rulesBefore := Phase(), rules;
        var ch := c.value;
        var escaping := false;
        if ch == '\\' {
          var next := NextChar();
          if next.None? {
            assert rest == ['\\'];
            return Some(DanglingEscape);
          }
          ch := next.value;
          escaping := true;
          assert rest[1] == ch && rest[2..] == pattern[position..];
        } else {
          assert rest[1..] == pattern[position..];
        }
        ghost var tail := pattern[position..];
        assert Scan(rest, before, rulesBefore)
               == match Step(before, rulesBefore, ch, escaping)
                  case Err(e) => Err(e)
                  case Ok(next) => Scan(tail, next.state, next.rules);
        var failure := Feed(ch, escaping);
        if failure.Some? {
          return failure;
        }
        assert Scan(tail, Phase(), rules) == goal;
        c := NextChar();
        assert c.Some? ==> pattern[position - 1..] == tail;
      }
      assert Scan([], Phase(), rules) == Ok(Progress(Phase(), rules));
      return None;
    }

    /** Compiles `pattern` into a new matcher, or reports why it does not
        compile. */
    static method Create(pattern: string) returns (r: Result<Matcher>)
      ensures r.Ok? <==> Compile(pattern).Ok?
      ensures r.Ok? ==> fresh(r.value) && r.value.Valid() && r.value.pattern == pattern
      ensures r.Ok? ==> Compile(pattern) == Ok(r.value.rules)
      ensures r.Ok? ==> r.value.Phase() == Scan(pattern, Normal, []).value.state
      ensures r.Err? ==> Compile(pattern) == Err(r.error)
    {
      var m := new Matcher(pattern);
      var err := m.GetRules();
      if err.Some? {
        return Err(err.value);
      }
      return Ok(m);
    }

    /** Walks the rules with a cursor into `text`, consuming exactly `count`
        characters per rule and giving up at the first character that is
        missing or rejected; succeeds only if the whole text was consumed. */
    method Match(text: string) returns (b: bool)
      ensures b == Matches(rules, text)
    {
      var idx := 0;
      var n := |text|;
      for k := 0 to |rules|
        invariant idx == |Expand(rules[..k])| <= n
        invariant idx <= |Expand(rules)|
        invariant forall i :: 0 <= i < idx ==> Accepts(Expand(rules)[i], text[i])
      {
        var rule := rules[k];
        for j := 0 to rule.count
          invariant idx == |Expand(rules[..k])| + j <= n
          invariant idx <= |Expand(rules)|
          invariant forall i :: 0 <= i < idx ==> Accepts(Expand(rules)[i], text[i])
        {
          ExpandAt(rules, k, j);
          if idx == n || !Accepts(rule.pred, text[idx]) {
            return false;
          }
          idx := idx + 1;
        }
        assert rules[..k + 1] == rules[..k] + [rule];
        ExpandAppend(rules[..k], [rule]);
        assert rules == rules[..k + 1] + rules[k + 1..];
        ExpandAppend(rules[..k + 1], rules[k + 1..]);
      }
      assert rules[..|rules|] == rules;
      return idx == n;
    }
  }
}
