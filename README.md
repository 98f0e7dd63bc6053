# adventure-book: the story format and the expression evaluator, in Dafny

This project models the core of *adventure-book*, a choose-your-own-adventure
engine, and proves properties of that model:

- **the story text format** (`src/adventure.rs`): an adventure file and a page
  file are read line by line. Each line is classified by the tag it starts
  with (`title:`, `description:`, `start:`, `record:`, `name:`, `story:`,
  `choice:`, `condition:`, `test:`, `result:`). Field lines are `;`-separated
  lists. A choice line carries `{condition: …}`, `{test: …}` and `{result: …}`
  tags that the source finds with three regular expressions.
- **the expression evaluator** (`src/evaluation.rs`): record references
  `[name]`, dice terms (`NdS`, pools `NdSpT` / `NdSqT`, exploding `NxS`),
  `l`/`h` chains that keep the lower or higher value, and `+ - * /`
  arithmetic. On top of it sit `evaluate_and_compare` and `evaluate_result`,
  which reads a story result into the next page and a table of record changes.
- **the dice generator** `Random` (`die`, `pool`, `pool_reverse`,
  `die_explode`).

Modules:

| file | module | what it holds |
|---|---|---|
| `wrappers.dfy` | `Wrappers` | `Option` and `Result` |
| `strings.dfy` | `Strings` | the Rust `str` operations the core uses: `trim`, `split`, `splitn`, `split_inclusive`, `lines`, `replacen`, `parse::<i32>`, `Display` of integers |
| `choice_tags.dfy` | `ChoiceTags` | a matcher for the three choice-tag patterns, proved sound and complete against a declarative reading of the pattern, and the `insert_in_choice!` macro |
| `adventure_format.dfy` | `AdventureFormat` | the story entities as datatypes, the field-line readers, the choice reader, the page and adventure loops |
| `dice.dfy` | `Dice` | the class `Random`, over the stream of raw generator outputs |
| `reduction.dfy` | `Reduction` | the reduction of the `ops` list: its meaning, the loop as written, and the corrected loop |
| `evaluation.dfy` | `Evaluation` | `evaluate_expression`, `evaluate_and_compare`, `evaluate_result` |

How it is modelled:

- Each parser is a function from text to `Result`.
- The two line loops (`Page::parse_from_string`,
  `Adventure::parse_from_string`) are methods with `for` loops. They are proved
  equal to a fold over the lines, and that fold is described field by field.
- The generator is a class whose one field is the stream of raw outputs it will
  still produce. Each `gen_range(lo..=hi)` consumes one raw output `x` and
  gives `lo + x % (hi - lo + 1)`.
- Every evaluation has a specification function from the expression, the
  record table and the stream to an `Outcome`:
  - `Done(value, rest)`;
  - `Failed(error, rest)`;
  - `Stuck`, for the source's panics and hangs.
- The methods that carry out the evaluations work the way the source does:
  - the `[`-substitution loop;
  - the `VecDeque` loop over `l`/`h` pieces;
  - the token loop.
  Each is proved to deliver its specification's outcome and to leave the
  generator on the rest of the stream.
- The reduction loop is modelled twice. `Reduction.ReduceAsWritten` is the
  loop as the source writes it, proved to compute `Reduction.Sweep`.
  `Reduction.Reduce` is the corrected loop (see "## Findings"), and
  `evaluate_expression`, `evaluate_and_compare` and `evaluate_result` are
  modelled with it.
- The `l`/`h` chain, the token loop, the comparison and the result loop are
  defined for any evaluator of their parts, passed as a function value, and
  their lemmas hold for every evaluator with the stated properties. The model
  instantiates them with its own readers: `Term` for a chain's terms, `TokenOp`
  for tokens and `Evaluate` for expressions. `TermEvaluator`, `TokenOpMarks` and
  `TokenOpMinusOne` prove that these readers have the properties the lemmas
  need.
- `TokenOp` is `Stuck` on an empty token, where `.last().unwrap()`
  (`src/evaluation.rs:120`) would panic. `Tokens` never yields an empty token,
  because `split_inclusive` gives no empty piece, so `Evaluate` never reaches
  that branch.

Where the code and the system's written description differ, the model follows
the code:

- Untagged lines after `story:` are not appended to the story. The page loop
  declares a fresh `flag` in every pass (`src/adventure.rs:177`), which shadows
  the one at line 166. See `StoryNotContinued`.
- A `name:` line has `record:` removed from it rather than `name:`
  (`src/adventure.rs:112`), so the `name:` tag stays in the name's keyword. See
  `NameLineKeepsTag`.
- A record reference the story does not define reads as `0`
  (`src/evaluation.rs:18-24`); it is not an error.
- There are no parentheses.
- Only the first tag of each kind on a choice line is taken out. A second one
  stays in the display text.

## Model

| member | source | states |
|---|---|---|
| Strings.TrimStartSpec | src/adventure.rs:93 | `trim_start` removes a whitespace prefix and no more: the result is a suffix of the input, does not start with whitespace, and the part removed is all whitespace |
| Strings.TrimEndSpec | src/adventure.rs:93 | `trim_end` removes a whitespace suffix and no more |
| Strings.Trim | src/adventure.rs:93 | the trimmed text neither starts nor ends with whitespace and is no longer than the input |
| Strings.TrimPadded | src/adventure.rs:93 | whitespace around a trimmed text is exactly what `trim` removes |
| Strings.TrimTrimmed | src/adventure.rs:93 | trimming is idempotent on trimmed text |
| Strings.Split | src/adventure.rs:344 | `split` gives at least one part and no part holds a separator |
| Strings.SplitJoin | src/adventure.rs:344 | splitting the separator-joined parts gives the parts back |
| Strings.Fields | src/adventure.rs:343-347 | every field of a field line is non-empty, trimmed and free of `;` |
| Strings.FieldsJoin | src/adventure.rs:343-347 | writing fields out with `;` between them and reading them back gives the same fields |
| Strings.SplitOnce | src/adventure.rs:403-407 | `splitn(2, ';')` gives one part exactly when there is no `;` (the input itself), else the text before the first `;` and everything after it |
| Strings.SplitInclusive | src/evaluation.rs:15 | `split_inclusive` gives no pieces exactly for the empty text |
| Strings.SplitInclusiveConcat | src/evaluation.rs:15 | the pieces put back together give the input |
| Strings.SplitInclusivePieces | src/evaluation.rs:15 | no piece is empty and only a piece's last character can be a terminator |
| Strings.SplitInclusiveTerminated | src/evaluation.rs:15 | every piece but the last ends with a terminator |
| Strings.Lines | src/adventure.rs:88 | `lines` gives one line per `\n`-terminated piece |
| Strings.FindLeftmost | src/adventure.rs:93 | `Find` reports an occurrence with none before it, or none at all |
| Strings.RemoveFirstPrefix | src/adventure.rs:93 | `replacen(tag, "", 1)` on a line starting with the tag drops exactly that prefix |
| Strings.RemoveFirstAbsent | src/adventure.rs:112 | without an occurrence `replacen` leaves the text unchanged |
| Strings.ParseI32 | src/evaluation.rs:36 | a parsed `i32` lies in the 32-bit range |
| Strings.ParseIntToString | src/evaluation.rs:20 | every 32-bit value printed in decimal parses back to itself |
| Strings.IntToStringChars | src/evaluation.rs:20 | a printed number holds no bracket or other non-digit besides a leading `-` |
| Strings.DigitsOfNat | src/evaluation.rs:20 | the decimal form of a natural number denotes that number |
| ChoiceTags.SkipSpace | src/adventure.rs:63 | the `\s*` of the tag patterns: the skip covers whitespace only and stops at the first non-whitespace |
| ChoiceTags.SkipWordOrSpace | src/adventure.rs:63 | the greedy run of word characters and whitespace in the capture stops at the first character that is neither |
| ChoiceTags.MatchAtSound | src/adventure.rs:63-65 | every match the anchored matcher reports is a match of the pattern |
| ChoiceTags.MatchAtComplete | src/adventure.rs:63-65 | every match of the pattern is the one the anchored matcher reports at its start |
| ChoiceTags.FindTagFrom | src/adventure.rs:262 | the search returns a match at or after its start position, and none lies between |
| ChoiceTags.FindTag | src/adventure.rs:262 | `captures` finds the leftmost match, and finds none exactly when the pattern does not occur |
| ChoiceTags.ExtractTag | src/adventure.rs:259-272 | the macro yields a non-empty name exactly when a tag is found; with no tag the text is left as it is |
| ChoiceTags.ExtractInserted | src/adventure.rs:259-272 | cutting a tag out of a text whose prefix opens no brace gives back the name and the text around the tag |
| ChoiceTags.NoTagKept | src/adventure.rs:262 | with no tag of the keyword, the text is unchanged and the name is empty |
| ChoiceTags.NoBraceNoTag | src/adventure.rs:63-65 | a text with no `{` holds no tag |
| ChoiceTags.NoTagForKeyword | src/adventure.rs:63-65 | a tag needs its keyword right after its brace |
| ChoiceTags.TagTaken | src/adventure.rs:259-272 | a tag written after a brace-free text is cut out and its name is read |
| ChoiceTags.TagSkipped | src/adventure.rs:259-272 | reading another keyword leaves such a text untouched |
| AdventureFormat.ComparisonFrom | src/adventure.rs:319-331 | each of the five symbols `>`, `>=`, `=`, `!`, `<` selects its comparison after trimming, and anything else is `LessEqual` (both directions) |
| AdventureFormat.ComparisonSymbol | src/adventure.rs:319-331 | every comparison is read back from its symbol |
| AdventureFormat.ParseCondition | src/adventure.rs:341-361 | a condition reads exactly when its line has four fields |
| AdventureFormat.ConditionRoundTrip | src/adventure.rs:341-361 | a condition written out as fields is read back unchanged |
| AdventureFormat.ParseTest | src/adventure.rs:374-393 | a test reads exactly when its line has six fields |
| AdventureFormat.TestRoundTrip | src/adventure.rs:374-393 | a test written out as fields is read back unchanged |
| AdventureFormat.ParseStoryResult | src/adventure.rs:402-417 | a result's name and expression are non-empty and trimmed |
| AdventureFormat.StoryResultSplit | src/adventure.rs:402-417 | a result line is cut at its first `;`; it reads exactly when both trimmed sides are non-empty, and fails without a `;` |
| AdventureFormat.StoryResultRoundTrip | src/adventure.rs:402-417 | `name; expression` reads back unchanged, whatever `;` the expression holds |
| AdventureFormat.ParseRecord | src/adventure.rs:428-448 | a record reads exactly when its line has one or two fields; its value starts at 0 and its category is empty exactly when there is one field |
| AdventureFormat.RecordRoundTrip | src/adventure.rs:428-448 | a record written out reads back with its name and category and value 0 |
| AdventureFormat.ParseName | src/adventure.rs:457-476 | a name reads exactly when its line has one or two fields |
| AdventureFormat.NameRoundTrip | src/adventure.rs:457-476 | a name written out reads back unchanged |
| AdventureFormat.ParseChoice | src/adventure.rs:286-317 | an accepted choice has display text and exactly one of a test and a result, and its text is trimmed |
| AdventureFormat.ParseChoiceSteps | src/adventure.rs:292-305 | reading a choice is the condition, test and result steps in that order, each on what the previous one left, then trimming |
| AdventureFormat.ChoiceRoundTrip | src/adventure.rs:286-317 | a choice written out with its tags reads back unchanged |
| AdventureFormat.ChoiceWithoutTagsRejected | src/adventure.rs:306-317 | a choice with no tag is rejected |
| AdventureFormat.ChoiceWithTestAndResultRejected | src/adventure.rs:313-315 | a choice with both a test and a result is rejected |
| AdventureFormat.FirstOfTwoTaken | src/adventure.rs:262-269 | of two tags of one keyword only the first is cut out |
| AdventureFormat.ChoiceSecondResultKept | src/adventure.rs:294-299 | a second result tag stays in the display text |
| AdventureFormat.ParseAllOk | src/adventure.rs:175-237 | reading lines succeeds exactly when every line reads, and each value comes from its own line |
| AdventureFormat.ParseAllConcat | src/adventure.rs:175-237 | reading two runs of lines one after the other |
| AdventureFormat.ParseAllFails | src/adventure.rs:199-201 | one line that does not read fails the whole run |
| AdventureFormat.ReadPageLine | src/adventure.rs:179-236 | title, story and untagged lines always read; an untagged line reads as nothing |
| AdventureFormat.PageLinePass | src/adventure.rs:175-237 | one pass of the page loop fails exactly when the line does not read, and otherwise adds the line's item to the page |
| AdventureFormat.ParsePage | src/adventure.rs:163-243 | the page loop returns exactly the page the fold over the lines describes, or its error |
| AdventureFormat.PageItemsFields | src/adventure.rs:175-237 | the page built from the read lines: the last title and story win, and every choice, condition, test and result is kept in file order |
| AdventureFormat.UntaggedLineIgnored | src/adventure.rs:177 | untagged lines never change the page, wherever they stand |
| AdventureFormat.StoryNotContinued | src/adventure.rs:166-186 | a line after `story:` that carries no tag is not added to the story |
| AdventureFormat.PageOfAccepts | src/adventure.rs:238-255 | a page is accepted exactly when every line reads and the page has a story, a choice and a result; its fields are then those the lines describe |
| AdventureFormat.ReadAdventureLine | src/adventure.rs:90-123 | only `record:` and `name:` lines can fail; an untagged line reads as its text |
| AdventureFormat.AdventureLinePass | src/adventure.rs:90-123 | one pass of the adventure loop fails exactly when the line does not read, keeps `flag` at 0 or 1, and otherwise adds the line's item |
| AdventureFormat.ParseAdventure | src/adventure.rs:85-131 | the adventure loop returns exactly the adventure the fold over the lines describes, or its error |
| AdventureFormat.AdventureItemsFields | src/adventure.rs:90-123 | the last title and start win, and every record and name is kept in file order |
| AdventureFormat.DescriptionRun | src/adventure.rs:94-122 | after a `description:` line the following untagged lines are appended to it |
| AdventureFormat.DescriptionBlock | src/adventure.rs:89-122 | the description is the last `description:` line's text followed by the untagged lines directly after it |
| AdventureFormat.NoDescription | src/adventure.rs:89-122 | without a `description:` line the description stays empty |
| AdventureFormat.AdventureOfAccepts | src/adventure.rs:124-147 | an adventure is accepted exactly when every line reads and title, description, path and start are non-empty; its fields are then those the lines describe |
| AdventureFormat.NameLineKeepsTag | src/adventure.rs:110-113 | on a `name:` line with no further `:` nothing is removed, so a parsed name's keyword starts with `name:` |
| Dice.Draw | src/evaluation.rs:331 | `gen_range(lo..=hi)` stays in its range |
| Dice.DrawReaches | src/evaluation.rs:331 | every value of the range is reachable, so the model does not narrow the generator |
| Dice.DieValue | src/evaluation.rs:326-332 | `die(amount, sides)` lies in `[amount, amount*sides]` |
| Dice.PoolCount | src/evaluation.rs:333-357 | a pool counts at most one per die |
| Dice.PoolCountExtremes | src/evaluation.rs:333-357 | a pool is full exactly when every roll scores, and empty exactly when none does |
| Dice.PoolOfOne | src/evaluation.rs:333-344 | with threshold 1 a plain pool counts every die |
| Dice.Exploding | src/evaluation.rs:358-373 | an exploding throw sums at least one per die and uses at least one raw output per die |
| Dice.ExplodingBound | src/evaluation.rs:358-373 | the sum is at most `sides` per raw output used |
| Dice.ExplodingOneSide | src/evaluation.rs:358-373 | a one-sided exploding die never stops |
| Dice.ExplodingWithoutMaximum | src/evaluation.rs:358-373 | when no roll shows the maximum, an exploding throw is one draw per die |
| Dice.Random.constructor | src/evaluation.rs:321-325 | a new generator starts at the stream its seed produces |
| Dice.Random.Die | src/evaluation.rs:326-332 | `die` returns the draw for the next raw output and consumes it |
| Dice.Random.Pool | src/evaluation.rs:333-344 | `pool` counts the rolls at or above the threshold and consumes one output per die |
| Dice.Random.PoolReverse | src/evaluation.rs:345-357 | `pool_reverse` counts the rolls at or below the threshold and consumes one output per die |
| Dice.Random.DieExplode | src/evaluation.rs:358-373 | `die_explode` returns the exploding sum and consumes exactly the outputs it used |
| Reduction.TerminatesExactly | src/evaluation.rs:213-242 | for entries built from tokens, the scan's end condition fails exactly when the last entry has priority 2 (a trailing `*` or `/`, or a bare `-`) and an earlier entry has priority 1 |
| Reduction.CombineKeepsSpinning | src/evaluation.rs:213-242 | when that condition fails, every combination the loop makes leaves at least two entries that still fail it, so `ops.len() == 1` is never reached and the loop spins (unless a zero divisor panics first) |
| Reduction.ReduceAsWritten | src/evaluation.rs:212-242 | the loop as written, with `i` kept after a combination and reset only at the end, returns what `Sweep` computes from position 0, and `None` where it divides by zero |
| Reduction.SweepOnePriority | src/evaluation.rs:213-242 | when every operator has one priority (only `+`/`-`, or only `*`/`/`), the loop as written gives the value the expression means |
| Reduction.QuotientMagnitude | src/evaluation.rs:232 | Rust's `/` rounds toward zero: the magnitude is the quotient of the magnitudes |
| Reduction.QuotientSign | src/evaluation.rs:232 | a non-zero quotient has the product of the operands' signs |
| Reduction.CombineShape | src/evaluation.rs:226-237 | combining a pair keeps the list well formed and the loop able to end |
| Reduction.NegatedValue | src/evaluation.rs:110-114 | `d*-1` means `-d` |
| Reduction.SweepCounterexample | src/evaluation.rs:213-242 | the loop as written evaluates `1-2*3-4` to -1, though the expression means -9 |
| Reduction.CombineAtHead | src/evaluation.rs:226-237 | combining the first pair when its priority allows keeps the value the expression means |
| Reduction.CombineAfterHead | src/evaluation.rs:226-237 | combining the second pair after a lower-priority first keeps the value |
| Reduction.Reduce | src/evaluation.rs:212-242 | the corrected loop returns the value the expression means under the usual precedence, left to right |
| Evaluation.WithoutBrackets | src/evaluation.rs:19 | the record name holds no bracket and keeps every other character |
| Evaluation.RecordText | src/evaluation.rs:18-24 | the text put in place of a record reference holds no bracket |
| Evaluation.SubstituteShrinks | src/evaluation.rs:150-156 | each substitution round leaves at least one `[` fewer, so the loop ends |
| Evaluation.SubstitutedPlain | src/evaluation.rs:150 | a text without brackets is left alone |
| Evaluation.RecordTextOf | src/evaluation.rs:18-24 | `eval_rec` on `[name]` gives the record's value in decimal, or `0` when the story has no such record |
| Evaluation.SubstitutedRecord | src/evaluation.rs:18-24 | a reference is replaced by the record's value, or by `0` when the story has no such record |
| Evaluation.Substitute | src/evaluation.rs:150-156 | the substitution loop returns the substituted text |
| Evaluation.LastBad | src/evaluation.rs:33-47 | the error `eval_die` keeps names the last part that is not an `i32` |
| Evaluation.ThrowDie | src/evaluation.rs:69 | a die throw succeeds exactly on positive numbers whose product fits `i32` and a stream that is not empty, gives a value in `[1, i32::MAX]` and uses one output |
| Evaluation.ThrowPool | src/evaluation.rs:70-71 | a pool throw succeeds exactly on positive numbers and a long enough stream, and counts between 0 and the number of dice |
| Evaluation.ThrowExploding | src/evaluation.rs:74 | an exploding throw gives at least the number of dice |
| Evaluation.DieTerm | src/evaluation.rs:26-77 | a die term's value is an `i32` |
| Evaluation.DieThrowFails | src/evaluation.rs:45-64 | a die term fails exactly when a part is not an `i32` or the number of parts is wrong, and a failure draws nothing |
| Evaluation.DieThrowBadPart | src/evaluation.rs:33-47 | the message for a bad part is `Couldn't process` followed by the last bad part |
| Evaluation.DieThrowArity | src/evaluation.rs:50-64 | a wrong number of parts is reported with the die or pool message |
| Evaluation.EvalDie | src/evaluation.rs:26-77 | `eval_die` delivers the die term's outcome |
| Evaluation.ThrowDice | src/evaluation.rs:67-76 | the `match typ` delivers the throw's value |
| Evaluation.Term | src/evaluation.rs:79-104 | a term's value is an `i32` |
| Evaluation.TermLiteral | src/evaluation.rs:87-93 | a term with no die mark evaluates exactly when it is an `i32`, draws nothing, and otherwise reports `doesn't appear to be a valid number` |
| Evaluation.EvalTerm | src/evaluation.rs:79-104 | `eval_exp` delivers the term's outcome |
| Evaluation.TermEvaluator | src/evaluation.rs:79-104 | every term's value is an `i32`, and an `i32` written in decimal reads back as itself without drawing, which the chain loop relies on when it requeues a picked value |
| Evaluation.Pick | src/evaluation.rs:190-194 | `l` keeps the lower of the two values and `h` the higher |
| Evaluation.ChainStepsFold | src/evaluation.rs:159-203 | the `VecDeque` loop computes the left-to-right fold of the chain's terms, drawing term by term |
| Evaluation.EvalRound | src/evaluation.rs:165-203 | one round either ends the chain with its outcome or requeues the picked value, keeping the chain's outcome |
| Evaluation.EvalChain | src/evaluation.rs:159-203 | the `l`/`h` loop delivers the chain's outcome |
| Evaluation.OperatorOf | src/evaluation.rs:120-141 | `+` and `-` have priority 1, `*` and `/` priority 2, anything else is the end with priority 0 |
| Evaluation.Operand | src/evaluation.rs:159-209 | an operand's value is an `i32` |
| Evaluation.TokenOpShape | src/evaluation.rs:120-147 | a token ending in an operator becomes an operator entry, any other the end entry |
| Evaluation.TokenOps | src/evaluation.rs:109-210 | the token loop produces one entry per token |
| Evaluation.Tokens | src/evaluation.rs:15 | the tokens are non-empty and every token but the last ends with an operator |
| Evaluation.EvaluateWellFormed | src/evaluation.rs:109-210 | the entries of a non-empty expression are always well formed |
| Evaluation.EvalToken | src/evaluation.rs:109-209 | one pass of the token loop delivers the token's entry |
| Evaluation.EvaluateExpression | src/evaluation.rs:10-243 | `evaluate_expression` delivers the expression's outcome and leaves the generator on the rest of the stream |
| Evaluation.TermDie | src/evaluation.rs:79-104 | `NdS` throws one die of that shape |
| Evaluation.EvaluateOneToken | src/evaluation.rs:109-209 | a text without operators is substituted, then read as a chain or a single term |
| Evaluation.EvaluateDie | src/evaluation.rs:386-400 | `NdS` on its own is one draw from the die range |
| Evaluation.EvaluateRecordDice | src/evaluation.rs:402-417 | `[name]dS` throws the record's value as the number of dice |
| Evaluation.EvaluateMissingRecord | src/evaluation.rs:18-24 | `[missing]` evaluates to 0 and draws nothing |
| Evaluation.TokenNumber | src/evaluation.rs:120-147 | a number followed by an operator is an entry with that number, operator and priority |
| Evaluation.TokenDie | src/evaluation.rs:120-209 | a die followed by an operator is an entry holding the die's value |
| Evaluation.NegatedTokens | src/evaluation.rs:15 | `T*-1` splits into `T*`, `-` and `1` |
| Evaluation.TokenOpsThree | src/evaluation.rs:109-210 | three tokens deliver their three entries in order, each on the stream the previous one left |
| Evaluation.TokenOpMinusOne | src/evaluation.rs:109-147 | a bare `-` is the entry -1 with priority 2 and `1` is the closing entry 1, on any stream and drawing nothing |
| Evaluation.NegatedWith | src/evaluation.rs:109-114 | for any token reader that reads `-` and `1` that way, `T*-1` evaluates to the negation of `T`'s value |
| Evaluation.EvaluateNegated | src/evaluation.rs:535-544 | `T*-1` is `T` negated, for any operand `T` |
| Evaluation.EvaluateMinusOne | src/evaluation.rs:110-114 | `-1` on its own is the number -1 |
| Evaluation.DieOperand | src/evaluation.rs:535-544 | the die `NdS` followed by `*` is an entry holding one draw |
| Evaluation.OperandPick | src/evaluation.rs:502-522 | in `NdS l MdT` and `NdS h MdT` the first die takes the first draw and the selector keeps the lower or higher value |
| Evaluation.EvaluateAndCompare | src/evaluation.rs:247-265 | `evaluate_and_compare` evaluates the left expression, then the right one on the rest of the stream, and compares them |
| Evaluation.CompareOpposite | src/evaluation.rs:247-265 | the opposite comparison draws the same numbers and gives the opposite answer |
| Evaluation.CompareLeftFirst | src/evaluation.rs:256-259 | an error on the left ends the comparison before the right expression draws anything |
| Evaluation.CompareDice | src/evaluation.rs:623-633 | comparing two dice: the left die takes the first draw, the right die the second |
| Evaluation.EvaluateResult | src/evaluation.rs:273-315 | `evaluate_result` delivers the result's outcome |
| Evaluation.Assignments | src/evaluation.rs:286-310 | the fields before the next page are read as one name and expression pair per two fields |
| Evaluation.ResultStepsPairs | src/evaluation.rs:286-310 | with an odd number of fields the last is the next page and the pairs before it are applied in order; the table stays `None` exactly when there are no pairs |
| Evaluation.ResultStepsEven | src/evaluation.rs:302-310 | with an even number of fields the loop never completes |
| Evaluation.AppliedKeys | src/evaluation.rs:297-301 | a name is in the change table exactly when the table already had it or some pair names it |
| Evaluation.AppliedLast | src/evaluation.rs:301 | the last pair naming a record decides its value |
| Evaluation.AppliedUntouched | src/evaluation.rs:301 | a name no pair mentions keeps its value |
| Evaluation.ResultOfFields | src/evaluation.rs:278-282 | a result written as fields is read back as exactly those fields |
| Evaluation.ResultBare | src/evaluation.rs:572-579 | a bare page name changes no record and draws nothing |
| Evaluation.ResultOneChange | src/evaluation.rs:581-590 | `name; N; next` goes to `next` and sets the one record to `N` |

## Findings

| source | as written | input that shows it | evidently intended | confidence | as-written member | corrected member |
|---|---|---|---|---|---|---|
| src/evaluation.rs:213-242 | after combining a pair the reduction loop keeps its position `i`; it goes back to 0 only after reaching the end | `1-2*3-4` gives -1, computed as `1-(6-4)` | the usual precedence, left to right: -9 | not executed | Reduction.SweepCounterexample | Reduction.Reduce |

`Reduction.Sweep` models the loop as written, and the method
`Reduction.ReduceAsWritten` runs it step by step. `Evaluation.Evaluate` uses the
value the expression means (`Reduction.Value`), and `Reduction.Reduce` is the
corrected loop: after every combination the scan goes back to the start, and it
is proved to compute that value.

## Left out

- The editor, the dialogs, the navigator, the GUI and the file I/O
  (`src/editor.rs`, `src/dialog.rs`): the page-navigation state machine and the
  record store live there and are not part of this model.
- The `rand` crate's `StdRng`: the generator is the stream of raw outputs it
  produces. `gen_range` maps a raw output into the range by a remainder, so the
  model does not fix the generator's distribution.
- Dice.Random.Die: the `assert!`s and the debug-build overflow of
  `amount * sides` are preconditions; a stream that runs out is also excluded.
- Evaluation.Evaluate: `Stuck` stands for every panic and hang of the source,
  and the methods require an outcome other than `Stuck`. These are:
  - an empty expression;
  - a division by zero;
  - a reduction that spins;
  - an unclosed `[`;
  - a generator assertion;
  - an exploding throw that never ends.
- Evaluation.EvaluateExpression: reduces with the corrected loop
  (`Reduction.Reduce`), so `1-2*3-4` gives -9 where the source gives -1.
  `Evaluation.EvaluateAndCompare` and `Evaluation.EvaluateResult` inherit
  this. The loop as written is `Reduction.ReduceAsWritten`; it agrees with the
  model when all operators share one priority (`Reduction.SweepOnePriority`).
- Evaluation.Evaluate: the arithmetic of the reduction is unbounded. The
  source's `i32` `+ - * /` can overflow (a panic in debug builds, a wrap in
  release builds); the model does not capture that.
- AdventureFormat.Record: a record's value is an integer. The source stores an
  `f64` (`src/adventure.rs:14`). `value_as_string` is not part of this model;
  a value is written in decimal.
- ChoiceTags.IsWordChar: the regex class `\w` is ASCII letters, digits and `_`.
  The source's regex engine also accepts Unicode letters.
- ChoiceTags.ExtractTag: the macro's in-place `replace_range` on the choice
  `String` is modelled on values, as the text with the tag cut out.
- Evaluation.EvaluateNegated: the source's `1d20*-1` test is stated for any
  operand text `T` whose `T*` entry is known. `Evaluation.DieOperand` gives that
  entry for a die.
- Evaluation.ResultOneChange: the source's tests with two changes and with a
  die as the value are covered by the general lemmas. These are
  `Evaluation.ResultStepsPairs` and `Evaluation.AppliedLast`, together with
  `Evaluation.EvaluateMinusOne` and `Evaluation.EvaluateDie`. They are not
  restated as concrete instances.
