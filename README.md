# A fixed-count pattern matcher, modelled in Dafny

The system is a two-stage pattern matcher written in Python (`main.py`).

- **Compiler.** A `Matcher` object compiles a pattern string into an ordered list of rules. It does so in one left-to-right scan.
  - Each rule pairs a character predicate with a repeat count.
  - A plain character is a literal rule and `.` is the wildcard rule.
  - `\` makes the next character literal.
  - `{n}` replaces the count of the rule emitted just before it.
  - The scan is a two-state machine: normal, or collecting the text of a count.
- **Matcher.** `match(text)` walks the rules with a cursor and consumes exactly `count` characters per rule. It stops at the first missing or rejected character. It succeeds only when the whole text has been consumed.

The Dafny project has five modules:

- `Rules` (`rules.dfy`) holds the predicate as a tagged value (`Exact(c)` or `Any`) instead of a closure, and the rule record.
- `Compiler` (`compiler.dfy`) holds the compiler as a value-level state machine. `Step` handles one character, `Scan` handles the rest of a pattern and `Compile` handles a whole pattern. It also proves the compiler's laws: composition of scans, what `{d}` does, last write wins, escaping, error cases, and the unterminated-brace and escaped-`}` behaviours.
- `Matching` (`matching.dfy`) holds the declarative meaning of a match. The rules, each repeated `count` times, give one predicate per position. A text matches when its length is the sum of the counts and every character satisfies the predicate at its position.
- `Engine` (`engine.dfy`) holds the `Matcher` class itself. Its fields `state`, `stateBuffer`, `position` (the pattern iterator) and `rules` are updated in place by the compile loop. `Match` is the nested cursor loop. `Feed`, `GetRules`, `Create` and `Match` are each proved equal to the value-level definitions; the constructor and `NextChar` only set up and advance the fields.
- `Properties` (`properties.dfy`) holds end-to-end laws and the concrete cases the script at the bottom of `main.py` asserts.

Three behaviours of the code are kept exactly as written:

- The code never checks the scanner state once the pattern ends (main.py:42). A pattern ending inside `{digits` therefore compiles, and the collected count is dropped. The model does the same, and a successful `GetRules` leaves the object in the state the scan ended in.
- Inside braces, the test for `}` ignores whether it was escaped (main.py:64). So an escaped `}` closes the braces like a plain one.
- A `{n}` with no rule before it fails, as the code's indexing of an empty list does (main.py:69). The count is parsed and checked before that failure is reached. So `{0}` fails for its count, not for the missing rule.

## Model

| member | source | states |
|---|---|---|
| `Rules.AcceptChar` | main.py:5-6 | the literal predicate accepts a character exactly when it equals the given one |
| `Rules.AcceptAll` | main.py:9-10 | the wildcard predicate accepts every character |
| `Rules.SetLastCount` | main.py:69-72 | rewriting the last rule keeps the list length, every earlier rule and the last rule's predicate, and sets its count to `n` |
| `Compiler.ParseCount` | main.py:65 | the collected count text is read as a number exactly when it is a non-empty string of ASCII digits, and the number is the decimal value of those digits, leading zeros allowed |
| `Compiler.ParseCountDecimal` | main.py:65 | reading back the decimal numeral of any `n` gives `n` (round trip) |
| `Compiler.Step` | main.py:44-77 | in the normal state no character fails; `{` opens a count; `.` adds a wildcard; any other or escaped character adds `(Exact(ch), 1)`. Inside braces, any character but `}` is collected, escaped or not. A `}`, escaped or not, succeeds exactly when the count parses, is at least 1 and a rule precedes it, and then rewrites only the last rule's count. Each failure reports its own error, and the step keeps every count at least 1 |
| `Compiler.Scan` | main.py:42-52 | scanning the rest of a pattern keeps every rule count at least 1 |
| `Compiler.Compile` | main.py:39-77 | every rule of a compiled pattern has count at least 1 |
| `Compiler.ScanAppend` | main.py:42-77 | once a prefix scans without error, the scan of prefix + rest is the scan of the rest from the state and rules the prefix left |
| `Compiler.ScanCollects` | main.py:76-77 | inside braces, text without `\` and `}` only extends the count buffer |
| `Compiler.BraceSetsLastCount` | main.py:63-74 | `{d}` from the normal state fails with `InvalidCount` if `d` is not a number, with `CountBelowOne` if it is 0, and with `NoPrecedingRule` if no rule precedes it; otherwise it replaces the last rule's count, and the scan continues in the normal state |
| `Compiler.EscapedBraceCloses` | main.py:63-64 | `{d\}` behaves exactly like `{d}`: an escaped `}` closes the braces |
| `Compiler.LastWriteWins` | main.py:69-72 | `X{n}{m}` gives X the count `m`, not `n + m` or `n * m`, and leaves the earlier rules unchanged |
| `Compiler.EscapeYieldsLiteral` | main.py:46-61 | after text that leaves the scanner in the normal state, an escaped character, `.`, `{` and `\` included, adds the single rule `(Exact(c), 1)` and the scan continues from there (inside braces an escaped character is instead collected, see `Compiler.Step`) |
| `Compiler.TrailingEscapeFails` | main.py:46-49 | when the text before it scans without error, a final unpaired `\` makes the pattern fail with `DanglingEscape` (an earlier error, as in `{3}\`, is reported first) |
| `Compiler.UnterminatedBraceDropped` | main.py:42 | after text that leaves the scanner in the normal state, a trailing `{d` whose count text `d` contains no `\` or `}` and is never closed is dropped without error; the rules are those before it, and the scan ends still collecting `d` |
| `Compiler.LiteralScan` | main.py:53-61 | a run of plain characters adds one `(Exact(c), 1)` rule per character |
| `Compiler.ScanLiteralRun` | main.py:53-61 | the same, for a run followed by any further pattern text |
| `Compiler.CountedLiteral` | main.py:60-72 | a plain character followed by `{d}` gives the one rule `(Exact(c), n)`, where `n` is the number `d` denotes |
| `Compiler.CountedEscape` | main.py:46-72 | an escaped character followed by `{d}` gives the one rule `(Exact(c), n)` |
| `Compiler.ScanWildcard` | main.py:57-58 | an unescaped `.` adds the rule `(Any, 1)` |
| `Compiler.LiteralCompile` | main.py:53-61 | a pattern with no `\`, `.` or `{` compiles to one `(Exact(c), 1)` rule per character |
| `Matching.Repeat` | main.py:86 | one rule contributes exactly `count` copies of its predicate |
| `Matching.Expand` | main.py:85-86 | the predicates the rules apply number exactly the sum of their counts |
| `Matching.ExpandAppend` | main.py:85 | the predicates of a concatenation of rule lists are those of each part, in order |
| `Matching.ExpandAt` | main.py:85-90 | the `j`-th character consumed by rule `k` is tested with that rule's predicate |
| `Matching.AnchoredAtBothEnds` | main.py:92 | a text whose length differs from the sum of the counts never matches |
| `Matching.NoTrailingText` | main.py:92 | a matching text with anything appended no longer matches, although its prefix does |
| `Matching.ExpandLiteral` | main.py:85-88 | literal rules test position `i` against the `i`-th character they were built from |
| `Matching.LiteralMatchesIffEqual` | main.py:85-92 | literal rules built from `s` match a text exactly when the text equals `s` |
| `Engine.Matcher.constructor` | main.py:15-22 | a new matcher holds the pattern, is in the normal state with an empty buffer, has read nothing and has no rules |
| `Engine.Matcher.NextChar` | main.py:26-32 | yields the next pattern character and advances, or yields nothing at the end without advancing |
| `Engine.Matcher.Feed` | main.py:53-77 | updating `state`, `stateBuffer` and `rules` in place for one character gives exactly what `Compiler.Step` gives, error included |
| `Engine.Matcher.GetRules` | main.py:39-77 | the in-place compile loop succeeds exactly when `Compiler.Compile` does, leaves `rules` equal to the compiled pattern, has read the whole pattern and leaves `state` and `stateBuffer` at the state the scan ended in (so an unclosed `{5` leaves state 1 with buffer `5`), and otherwise reports the same error |
| `Engine.Matcher.Create` | main.py:15-24 | building a matcher succeeds exactly when the pattern compiles, gives a fresh matcher whose rules are the compiled pattern and whose scanner state is the one the scan ended in, and otherwise reports the compile error |
| `Engine.Matcher.Match` | main.py:79-92 | the cursor walk returns true exactly when the text has the summed length and every character satisfies the predicate of the rule covering its position |
| `Properties.LiteralPatternIsEquality` | main.py:53-92 | a pattern with no `\`, `.` or `{` compiles, and then accepts exactly the text equal to itself |
| `Properties.LeadingA` | main.py:60-61 | a leading plain `a` adds `(Exact('a'), 1)` |
| `Properties.EscapedDotCompiles` | main.py:95 | `\.{5}` compiles to five literal dots |
| `Properties.EscapedDotMatches` | main.py:97-98 | those rules accept `.....` and reject `aaaaa` |
| `Properties.WildcardCompiles` | main.py:100 | `a{5}.c{2}` compiles to `a` x5, any x1, `c` x2 |
| `Properties.WildcardMatches` | main.py:102-104 | those rules accept `aaaaa cc` and `aaaaabcc` and reject `aaaaa cca` |
| `Properties.LiteralSpaceCompiles` | main.py:106 | `a{5} c{2}` compiles to `a` x5, a space x1, `c` x2 |
| `Properties.LiteralSpaceMatches` | main.py:108-110 | those rules accept `aaaaa cc` and reject `aaaaabcc` and `aaaaa cca` |
| `Properties.ZeroCountFails` | main.py:65-67 | `a{0}` fails with `CountBelowOne(0)` |
| `Properties.NonNumericCountFails` | main.py:65 | `a{x}` and `a{}` fail with `InvalidCount` |
| `Properties.LeadingZeroCount` | main.py:65 | the count text `05` reads as 5 and `000` as 0, leading zeros allowed |
| `Properties.CountWithoutRuleFails` | main.py:69 | `{3}` fails with `NoPrecedingRule` |
| `Properties.DanglingEscapeFails` | main.py:48-49 | `a\` fails with `DanglingEscape` |
| `Properties.SecondCountWins` | main.py:69-72 | `a{2}{3}` compiles to the single rule `a` x3 |
| `Properties.UnclosedCountIgnored` | main.py:42 | `a{5` compiles to the single rule `a` x1 |
| `Properties.EscapedCloseSetsCount` | main.py:64-72 | `{5\}` sets the last rule's count to 5 |
| `Properties.EscapedCloseStillCloses` | main.py:64 | `a{5\}` compiles to the single rule `a` x5 |

## Left out

- Python closures and the `Callable` rule type (main.py:3-10) are not modelled. There are only two predicate kinds, so they are the tagged value `Pred`.
- Iterator and exception mechanics are not modelled. The pattern iterator is the index `position`. The exceptions become `CompileError` values:
  - the bare `raise` becomes `DanglingEscape`;
  - the `ValueError` from `int()` becomes `InvalidCount`;
  - the failed `assert` becomes `CountBelowOne`;
  - the `IndexError` becomes `NoPrecedingRule`.
- `Compiler.ParseCount`: reads only non-empty strings of ASCII digits, and differs from Python's `int()` in both directions:
  - `int()` also accepts surrounding whitespace, a sign, underscores between digits and non-ASCII decimal digits. So `a{ 5}` and `a{+5}` compile in Python but fail in the model with `InvalidCount`.
  - For the same reason, `a{-5}` and `a{ 0}` get past `int()` in Python and fail at `assert length >= 1` (main.py:67), that is with `CountBelowOne`. The model reports `InvalidCount` for them.
  - Current CPython makes `int()` raise `ValueError` on a decimal string longer than 4300 digits (the default integer string conversion limit). So `a{` followed by 4301 digits and `}` fails in Python but compiles in the model, whose numbers are unbounded.
- `Compiler.Step`: assumes Python assertions are enabled. Under `python -O` the `assert length >= 1` at main.py:67 is skipped, and `{0}` would give a rule with count 0.
- The `rules` property (main.py:34-37) is the field `Matcher.rules` itself.
- The script at main.py:95-110 is not part of the model. It appears only as the lemmas in `Properties` and the client methods `Properties.DemoEscapedDot`, `Properties.DemoWildcard` and `Properties.DemoLiteralSpace`.
