# Rule-driven lexer and parser framework, modelled in Dafny

This project models the core of a Rust framework that builds lexers and
parsers out of independently registered rules. A lexer and a parser run
the same matching step:
- sort the rules once by descending priority, keeping ties in the order they were registered;
- peek at the next char or token;
- skip every rule whose `quick_check` answers "cannot match";
- try each remaining rule from a checkpoint and restore the checkpoint when it fails;
- take the first rule that succeeds.

The collecting loops stop at the end of input or when a rule "succeeds"
without advancing.

The model covers:

- **Cursors and contexts** (`Scanning`, `Cursors`, `LexContexts`, `StreamingLex`, `ParseContexts`, `TextSlices`):
  - the char cursor, with its line/column/byte-offset position and exact checkpoint/restore;
  - the lexing contexts that forward to it, and the push-fed streaming lexing context;
  - the token-vector parsing context, which also serves as the streaming parse context;
  - text slices.
- **Rule engines** (`RuleEngine`, `Priorities`, `Lexers`, `Parsers`, `LegacyLexing`):
  - first-match selection with quick checks, and the stable priority sort;
  - the lexer's `next_token`, `next`, `size_hint`, `tokenize` and signal interface;
  - the parser's `next_node`, `parse`, `parse_one` and `drain_ready_nodes`;
  - the older lexer engine of `src/lexer.rs`, which has no quick check and no progress guard.
- **`LazyContext`** (`LazyContexts`): a sliding window of tokens pulled on demand, with commit and pruning.
- **The Pratt loop** (`Pratt`), with two example configurations: the pipeline benchmark's arithmetic table (`PrattExample`) and the parser benchmark's table with variables and calls (`BatchExample`).
- **The pipelines** (`Pipelines`): the batch pipeline and the streaming controller loop between a token producer and a token consumer.
- **Concrete grammars:**
  - the simple rules of `src/lexer/rules.rs` (`LegacyRules`);
  - the JSON-style lexer (`JsonLexing`);
  - the pipeline demo's calculator lexer, precedence-climbing parser and filtering producer (`DemoLexing`, `DemoParsing`, `DemoFiltering`);
  - the fixed `number op number` parser (`SimpleParsing`);
  - the Markdown renderer's lexer rules, block rules, syntax tree and render decision (`MarkdownLexing`, `MarkdownParsing`, `MarkdownAst`, `MarkdownRendering`).

The modelling choices:

- **Rules are values.** Rust trait objects become a `Rules` datatype of three functions: `attempt`, `priority` and `quickCheck`.
  - A rule's `try_match` is a function from a context state to the output and the state it leaves behind.
  - A concrete grammar's rules are a datatype over which these functions are defined.
- **Imperative code stays imperative.** Every class of the source whose fields change in place is a Dafny `class`:
  - `Cursor`, `DefaultContext`, `Lexer`, `StreamingLexContext`, the parsing context, `Parser`, `LazyContext`, `MarkdownRenderer`, `FilteringProducer`.
  - Each method is proved to leave the state, and return the value, that a function of the old state gives.
  - The properties of the source are proved about those functions.
- **Rules come in two forms.** Each concrete rule is a `Match...`/`...Attempt` function over the state and a `Try...` method over a context. The method is proved equal to the function.
- **Positions count in two units.** The cursor keeps the byte index `current` of the source. Beside it sits a model-only char index; the byte index is the UTF-8 size of the chars before the char index.

## Model

| member | source | states |
|---|---|---|
| Common.Utf8Len | lexer-framework/src/cursor.rs:76-77 | a char takes 1 to 4 bytes, and exactly one when it is ASCII |
| Common.Utf8SizeBounds | lexer-framework/src/cursor.rs:77-87 | a string takes between one and four bytes per char, and no bytes only when it is empty |
| Common.Utf8SizePrefixMonotone | lexer-framework/src/cursor.rs:86-87 | the byte index grows strictly as more chars are passed |
| Common.TrimStartShape | examples/markdown-renderer/src/parser_rules.rs:107-110 | `trim_start` removes exactly a leading whitespace run: what is left is a suffix that starts with a non-whitespace char |
| Common.TrimEndShape | examples/markdown-renderer/src/parser_rules.rs:107-110 | `trim_end` removes exactly a trailing whitespace run: what is left is a prefix that ends with a non-whitespace char |
| Common.TrimShape | examples/markdown-renderer/src/parser_rules.rs:107-110 | a trimmed string has no whitespace at either end, and is empty exactly when the string was all whitespace |
| Common.TrimEmptyIffBlank | examples/markdown-renderer/src/parser_rules.rs:29 | `trim().is_empty()` holds exactly when every char is whitespace |
| TextSlices.TextSlice.Text | common-framework/src/text_slice.rs:66-72 | the viewed text has `end - start` chars, the buffer's chars from `start` on |
| TextSlices.TextSlice.Len | common-framework/src/text_slice.rs:34-37 | the length is the UTF-8 byte size of the viewed text, between one and four bytes per char |
| TextSlices.New | common-framework/src/text_slice.rs:18-22 | within the asserted bounds the slice is valid and views `buffer[start..end]` |
| TextSlices.FromWhole | common-framework/src/text_slice.rs:25-32 | the slice views the whole buffer and its length is the buffer's byte length |
| TextSlices.EmptyIffNoChars | common-framework/src/text_slice.rs:39-42 | a slice is empty exactly when its ends meet, exactly when it views no chars |
| TextSlices.EqualsStrSymmetric | common-framework/src/text_slice.rs:80-90 | comparing a slice with a string gives the same answer from either side, and equal means the same number of chars |
| TextSlices.SameSliceIsIdentity | common-framework/src/text_slice.rs:92-99 | two slices are equal exactly when their buffer and bounds are equal, and equal slices view equal text |
| Scanning.PositionAfterCounts | lexer-framework/src/cursor.rs:79-87 | after any text the line is one more than its line feeds, the column one more than its chars since the last line feed, and the offset its UTF-8 byte size |
| Scanning.PositionAfterSnoc | lexer-framework/src/cursor.rs:79-87 | passing one more char moves the position by exactly one step: a new line after a line feed, the next column otherwise |
| Scanning.Start | lexer-framework/src/cursor.rs:16-29 | a new cursor is valid, at char 0, byte 0 and position (1, 1, 0) |
| Scanning.IsEofIsByteTest | lexer-framework/src/cursor.rs:41-44 | on a valid cursor, being past the last char is the same as `current >= buffer.len()` |
| Scanning.Peek | lexer-framework/src/cursor.rs:46-49 | there is a char exactly when the cursor is before the end, and it is the char at the cursor |
| Scanning.Advance | lexer-framework/src/cursor.rs:70-90 | at the end nothing changes; otherwise the char at the cursor is returned, the byte index grows by its UTF-8 length, a line feed starts a new line at column 1, any other char moves one column, and validity is kept |
| Scanning.AdvanceAtEofRepeated | lexer-framework/src/cursor.rs:72-74 | advancing at the end of input, any number of times, leaves the state as it was |
| Scanning.AdvanceBy | lexer-framework/src/cursor.rs:92-102 | the count is `n` or the number of chars left, whichever is smaller, and the cursor moves by exactly that many chars |
| Scanning.ConsumeWhileEnd | lexer-framework/src/cursor.rs:104-117 | the cursor stops after the longest run of chars satisfying the predicate: every char passed satisfies it and the next one, if any, does not |
| Scanning.ConsumeWhile | lexer-framework/src/cursor.rs:104-117 | the slice runs from the old cursor to the new one, all of its chars satisfy the predicate, and the char after it does not |
| Scanning.PeekSlice | lexer-framework/src/cursor.rs:51-63 | the slice starts at the cursor and holds the next `n` chars, or all that are left |
| Scanning.Remaining | lexer-framework/src/cursor.rs:119-122 | the slice is the text from the cursor to the end |
| Scanning.Reset | lexer-framework/src/cursor.rs:124-128 | reset leaves a valid cursor at the start of the same buffer |
| Scanning.CheckpointOf | lexer-framework/src/cursor.rs:130-136 | a checkpoint of a valid cursor is a valid mark for its buffer |
| Scanning.Restore | lexer-framework/src/cursor.rs:138-142 | restoring a valid mark gives a valid cursor over the same buffer |
| Scanning.RestoreCheckpoint | lexer-framework/src/cursor.rs:130-142 | restoring a checkpoint, after any moves over the same buffer, gives back exactly the state it was taken in |
| Scanning.CurrentMonotone | lexer-framework/src/cursor.rs:86-87 | on one buffer the byte index grows strictly with the char index, so equal byte indexes mean equal states |
| Scanning.ConsumeWhileEndsRun | lexer-framework/src/cursor.rs:110-115 | `consume_while` stops exactly where the run of matching chars ends |
| Cursors.Cursor.constructor | lexer-framework/src/cursor.rs:15-29 | a new cursor is valid and at the start of its input |
| Cursors.Cursor.CurrentPosition | lexer-framework/src/cursor.rs:31-34 | the position is the one reached by scanning the text before the cursor |
| Cursors.Cursor.Offset | lexer-framework/src/cursor.rs:36-39 | the byte offset equals the position's offset and the UTF-8 size of the text before the cursor |
| Cursors.Cursor.IsEof | lexer-framework/src/cursor.rs:41-44 | `current >= buffer.len()` holds exactly when no char is left |
| Cursors.Cursor.Peek | lexer-framework/src/cursor.rs:46-49 | a char is returned exactly when one is left, and it is `Scanning.Peek` of the cursor's state |
| Cursors.Cursor.PeekSlice | lexer-framework/src/cursor.rs:51-68 | the slice is `Scanning.PeekSlice` of the state: at most `n` chars from the cursor |
| Cursors.Cursor.Remaining | lexer-framework/src/cursor.rs:119-122 | the slice views the text from the cursor to the end |
| Cursors.Cursor.Advance | lexer-framework/src/cursor.rs:70-90 | the returned char and the new state are `Scanning.Advance` of the old state |
| Cursors.Cursor.AdvanceBy | lexer-framework/src/cursor.rs:92-102 | the loop's count and the new state are `Scanning.AdvanceBy` of the old state |
| Cursors.Cursor.ConsumeWhile | lexer-framework/src/cursor.rs:104-117 | the loop's slice and the new state are `Scanning.ConsumeWhile` of the old state |
| Cursors.Cursor.Reset | lexer-framework/src/cursor.rs:124-128 | the new state is `Scanning.Reset` of the old one |
| Cursors.Cursor.Checkpoint | lexer-framework/src/cursor.rs:130-136 | the mark is valid for the buffer and records the current state |
| Cursors.Cursor.Restore | lexer-framework/src/cursor.rs:138-142 | the new state is `Scanning.Restore` of the old state and the mark |
| LexContexts.DefaultContext.constructor | lexer-framework/src/context.rs:65-70 | a new context owns a fresh cursor at the start of the input |
| LexContexts.DefaultContext.CurrentPosition | lexer-framework/src/context.rs:14-17 | the position is the cursor's position |
| LexContexts.DefaultContext.IsEof | lexer-framework/src/context.rs:19-22 | the answer is the cursor's: `current >= buffer.len()` |
| LexContexts.DefaultContext.Peek | lexer-framework/src/context.rs:24-27 | the char is the cursor's next char |
| LexContexts.DefaultContext.Offset | lexer-framework/src/context.rs:52-56 | the offset is the cursor's byte index |
| LexContexts.DefaultContext.Checkpoint | lexer-framework/src/context.rs:42-45 | the mark is the cursor's checkpoint, valid for its buffer |
| LexContexts.DefaultContext.Advance | lexer-framework/src/context.rs:29-32 | the char and the new state are `Scanning.Advance` of the old state |
| LexContexts.DefaultContext.ConsumeWhile | lexer-framework/src/context.rs:34-40 | the slice and the new state are `Scanning.ConsumeWhile` of the old state |
| LexContexts.DefaultContext.Restore | lexer-framework/src/context.rs:47-50 | the new state is `Scanning.Restore` of the old state and the mark |
| LexContexts.AdvanceTimes | lexer-example/src/bin/json_lexer.rs:214-232 | `n` calls of `advance` in a row leave the context where `n` single steps of the cursor state put it: `n` chars on, or at the end of input |
| StreamingLex.ExtendKeepsValid | lexer-framework/src/streaming.rs:27-37 | appending text behind the buffer keeps the cursor's state valid |
| StreamingLex.PushKeepsMarks | lexer-framework/src/streaming.rs:27-37 | a checkpoint taken before a push can still be restored after it |
| StreamingLex.StreamEofAgreesWhenFinished | lexer-framework/src/streaming.rs:112-114 | the context is at its end exactly when it is finished and `current >= buffer.len()`; before `mark_finished` it never is |
| StreamingLex.StreamingLexContext.constructor | lexer-framework/src/streaming.rs:17-25 | a new context is valid, empty, at the start, and not finished |
| StreamingLex.StreamingLexContext.FromStr | lexer-framework/src/streaming.rs:51-71 | a context built from a string is at its start over that string and already finished |
| StreamingLex.StreamingLexContext.PushChar | lexer-framework/src/streaming.rs:27-31 | the char is appended to the buffer, the cursor stays where it was, and the context is no longer finished |
| StreamingLex.StreamingLexContext.PushStr | lexer-framework/src/streaming.rs:33-37 | the text is appended to the buffer, the cursor stays where it was, and the context is no longer finished |
| StreamingLex.StreamingLexContext.MarkFinished | lexer-framework/src/streaming.rs:39-42 | the context becomes finished and nothing else changes |
| StreamingLex.StreamingLexContext.Peek | lexer-framework/src/streaming.rs:86-91 | the char is `Scanning.Peek` of the state |
| StreamingLex.StreamingLexContext.Advance | lexer-framework/src/streaming.rs:93-106 | the char and the new state are `Scanning.Advance` of the old state; `finished` is kept |
| StreamingLex.StreamingLexContext.CurrentPosition | lexer-framework/src/streaming.rs:108-110 | the position is the one reached by scanning the text before the cursor |
| StreamingLex.StreamingLexContext.IsEof | lexer-framework/src/streaming.rs:112-114 | at the end exactly when finished and `current >= buffer.len()` |
| StreamingLex.StreamingLexContext.ConsumeWhile | lexer-framework/src/streaming.rs:116-130 | the slice and the new state are `Scanning.ConsumeWhile` of the old state; `finished` is kept |
| StreamingLex.StreamingLexContext.Checkpoint | lexer-framework/src/streaming.rs:132-134 | the mark records the current state and is valid for the buffer |
| StreamingLex.StreamingLexContext.Restore | lexer-framework/src/streaming.rs:136-139 | the new state is `Scanning.Restore` of the old state and the mark; `finished` is kept |
| StreamingLex.StreamingLexContext.Offset | lexer-framework/src/streaming.rs:141-143 | the offset is the byte index, the UTF-8 size of the text before the cursor |
| Priorities.InsertKeepsSorted | lexer-framework/src/lexer.rs:20-23 | inserting a rule into a list in descending priority order keeps it in that order |
| Priorities.SortIsDescending | lexer-framework/src/lexer.rs:20-23 | after `sort_by_key(Reverse(priority))` the rules are in descending priority order |
| Priorities.SortIsStable | lexer-framework/src/lexer.rs:20-23 | the sort is stable: the rules of any one priority keep their registration order |
| Priorities.SortIsPermutation | lexer-framework/src/lexer.rs:20-23 | the sort neither adds nor drops a rule: the sorted list is a permutation of the registered one |
| Priorities.SortedFromInput | lexer-framework/src/lexer.rs:20-23 | every sorted rule is one of the registered rules |
| Priorities.SortSameKeys | lexer-framework/src/lexer.rs:20-23 | the order depends only on the priorities the rules report |
| Priorities.Insert | lexer-framework/src/lexer.rs:20-23 | placing one rule adds exactly one to the length; its contents and place are stated by the insertion lemmas below |
| Priorities.InsertAdds | lexer-framework/src/lexer.rs:20-23 | placing a rule adds that rule and nothing else: the multiset grows by exactly it |
| Priorities.InsertElements | lexer-framework/src/lexer.rs:20-23 | every rule of the result is the placed rule or one of the rules already sorted |
| Priorities.WithKeyInsert | lexer-framework/src/lexer.rs:20-23 | among the rules of its own priority the placed rule comes first, ahead of those already there; other priorities keep their rules unchanged |
| Priorities.InsertSameKeys | lexer-framework/src/lexer.rs:20-23 | where the placed rule lands depends only on the priorities reported |
| Priorities.SortByPriority | lexer-framework/src/lexer.rs:20-23 | the sorted list is as long as the registered one; its order, stability and contents are stated by the Sort lemmas above |
| Priorities.InsertAfterHigher | lexer-framework/src/lexer.rs:20-23 | a rule goes after every rule of strictly higher priority and before the first of no higher priority |
| Priorities.SortKeepsSorted | lexer-framework/src/lexer.rs:20-23 | rules registered in descending priority order are tried in registration order |
| RuleEngine.DefaultPriorityKeepsOrder | lexer-framework/src/traits.rs:38-40 | rules that all keep the default priority stay in registration order after the sort by priority |
| RuleEngine.DefaultQuickCheckTriesEveryRule | lexer-framework/src/traits.rs:53-56 | with the default quick check no rule is skipped: the engine answers nothing exactly when every rule fails |
| RuleEngine.WithoutQuickCheck | lexer-framework/src/traits.rs:42-56 | replacing every quick check by the default keeps each rule's matching and priority |
| RuleEngine.FirstMatchFrom | lexer-framework/src/lexer.rs:46-64 | when no rule matches, the state is the one the engine started from: each failed attempt was undone |
| RuleEngine.FirstMatchWinner | lexer-framework/src/lexer.rs:46-64 | a success is the attempt of one rule that was not skipped and matched, and every rule before it was skipped or failed |
| RuleEngine.FirstMatchNoneIff | lexer-framework/src/lexer.rs:46-64 | the engine returns nothing exactly when every rule is skipped by its quick check or fails |
| RuleEngine.QuickCheckIsOptimisation | lexer-framework/src/lexer.rs:50-53 | when every `Some(false)` quick check is right, skipping gives the same answer and state as trying every rule |
| RuleEngine.HigherPriorityRulesFailed | lexer-framework/src/lexer.rs:20-64 | with the rules sorted, no rule of strictly higher priority than the winner could have matched |
| Lexers.SortKeepsConfined | lexer-framework/src/lexer.rs:20-23 | sorting the rules keeps what every rule guarantees about the cursor |
| Lexers.NextTokenEffect | lexer-framework/src/lexer.rs:46-64 | `next_token` only moves the cursor forward over the same input, and leaves it untouched when no rule matched |
| Lexers.NextProgress | lexer-framework/src/lexer.rs:93-131 | `next` returns a token only away from the end of input and after the cursor moved; when it returns nothing the context is as it was |
| Lexers.TokenizeSpec | lexer-framework/src/lexer.rs:66-72 | `tokenize` only moves forward and gives at most one token per char left |
| Lexers.NextProducedAwayFromEnd | lexer-framework/src/lexer.rs:93-107 | every token `next` returns is one rule's result, produced before the end of input |
| Lexers.TokenizeStep | lexer-framework/src/lexer.rs:66-72 | `tokenize` is the token of `next` followed by `tokenize` from where it left off, or nothing once `next` gives nothing |
| Lexers.TokenizeAvoids | lexer-framework/src/lexer.rs:66-72 | a kind of token that no rule produces away from the end of input never appears in the result of `tokenize` |
| Lexers.SignalCases | lexer-framework/src/streaming.rs:166-176 | a lexer signals a token exactly when `next` gives one, end of input exactly when it gives none at the end, and nothing when stuck before the end |
| Lexers.Lexer.constructor | lexer-framework/src/lexer.rs:20-29 | the lexer keeps the context and the rules sorted by descending priority |
| Lexers.Lexer.FromStr | lexer-framework/src/lexer.rs:75-83 | the lexer starts at the start of the input, with the rules sorted |
| Lexers.Lexer.NextToken | lexer-framework/src/lexer.rs:46-64 | the loop's token and the new state are `NextTokenSpec` of the old state: the first rule not skipped that matches, each failure restored |
| Lexers.Lexer.Next | lexer-framework/src/lexer.rs:93-131 | the token and the new state are `NextSpec` of the old state |
| Lexers.Lexer.PollToken | lexer-framework/src/streaming.rs:153-160 | polling is `next` |
| Lexers.Lexer.SizeHint | lexer-framework/src/lexer.rs:133-152 | the hint is zero to the number of chars left, and `tokenize` gives no more tokens than that upper bound |
| Lexers.Lexer.Tokenize | lexer-framework/src/lexer.rs:66-72 | the loop's tokens and the new state are `TokenizeSpec` of the old state |
| Lexers.Lexer.NextSignal | lexer-framework/src/streaming.rs:162-177 | the signal and the new state are `SignalSpec` of the old state |
| Lexers.Lexer.HandleSignal | lexer-framework/src/streaming.rs:179-188 | handling a signal leaves the lexer's state unchanged |
| LegacyLexing.LegacyNextSpec | src/lexer.rs:52-63 | when no rule matches, the state is the one the engine started from |
| LegacyLexing.LegacyNextNoneIff | src/lexer.rs:52-63 | the older `next_token` returns nothing exactly when every rule fails |
| LegacyLexing.LegacyNextEffect | src/lexer.rs:52-63 | the older `next_token` only moves the cursor forward over the same input |
| LegacyLexing.LegacyNextAgrees | src/lexer.rs:52-63 | when quick checks are right, the older `next_token`, which has none, answers as the newer one does |
| LegacyLexing.LegacyTokenizeSpec | src/lexer.rs:65-72 | a loop that ends within the fuel has collected at most one token per iteration |
| LegacyLexing.LegacyFuelMonotone | src/lexer.rs:65-72 | once the loop ends within some fuel, more fuel gives the same answer |
| LegacyLexing.LegacyAgreesWhenAdvancing | src/lexer.rs:65-72 | when every successful rule moves the cursor, the older loop ends, within one iteration per char left, with exactly the tokens and state of the newer `tokenize` |
| LegacyLexing.SortedDefaultRules | src/lexer/rules.rs:249-263 | sorting the default rules keeps exactly the same rules |
| LegacyLexing.SortedDefaultRulesOrder | src/lexer.rs:31-34 | `default_rules()` after the sort: identifier, number, operator, newline, whitespace, end of input |
| LegacyLexing.RegisteredOrderSorted | src/lexer/rules.rs:71-246 | with the priorities 2, 1, 10, 10, 5 and -1 of the six rules in registration order, the sort gives identifier, number, operator, newline, whitespace, end of input |
| LegacyLexing.EofTokenAtEnd | src/lexer.rs:52-63 | at the end of input the sorted default rules give an `Eof` token and leave the cursor where it was |
| LegacyLexing.LegacyTokenizeSpins | src/lexer.rs:65-72 | when `next_token` succeeds without moving, the loop never ends |
| LegacyLexing.LegacyTokenizeNeverEndsAtEof | src/lexer.rs:65-72 | with the default rules, from the end of input the `tokenize` loop never ends |
| LegacyLexing.LegacyTokenizeEndsStuck | src/lexer.rs:65-72 | whenever the loop ends, it ends at a state where no rule matches |
| LegacyLexing.LegacyTokenizeReturnsOnlyWhenStuck | src/lexer.rs:65-72 | with the default rules, the loop can only end before the end of input, so it never returns on a fully lexed input |
| LegacyLexing.GuardedTokenizeHasNoEof | lexer-framework/src/lexer.rs:93-96 | the newer engine, which stops at the end of input before trying rules, always ends, and its tokens from the default rules contain no `Eof` |
| LegacyLexing.EofOnlyAtEnd | src/lexer/rules.rs:234-242 | away from the end of input no default rule produces an `Eof` token |
| LegacyLexing.LegacyLexer.constructor | src/lexer.rs:30-40 | the lexer keeps its context and the rules sorted by descending priority |
| LegacyLexing.LegacyLexer.FromStr | src/lexer.rs:75-83 | the lexer starts at the start of the input, with the rules sorted |
| LegacyLexing.LegacyLexer.NextToken | src/lexer.rs:52-63 | the loop's token and the new state are `LegacyNextSpec` of the old state |
| LegacyLexing.LegacyLexer.Tokenize | src/lexer.rs:65-72 | when the loop ends within the fuel, its tokens and state are `LegacyTokenizeSpec` of the old state; otherwise that function reports that the fuel ran out |
| LegacyLexing.OnlyEofAtEnd | src/lexer/rules.rs:53-242 | at the end of input the only default rule that matches is the `Eof` rule, which gives `Eof` at the current position and consumes nothing |
| LegacyLexing.WinnerAdvances | src/lexer.rs:53-63 | where every successful rule moves the cursor, a successful `next_token` moves it forward |
| LegacyLexing.SimpleRulesConfined | src/lexer/rules.rs:53-242 | every rule set over the simple rules keeps the cursor valid and only moves it forward |
| LegacyRules.SpacesOnly | src/lexer/rules.rs:43 | true exactly when every char of the text is a space |
| LegacyRules.IsIndent | src/lexer/rules.rs:41-47 | an indent is exactly a whitespace token that starts with a tab or is made only of spaces |
| LegacyRules.DefaultRules | src/lexer/rules.rs:249-263 | six rules are registered and the end-of-input rule is the last of them |
| LegacyRules.MatchWhitespace | src/lexer/rules.rs:57-69 | a token exactly when a whitespace char other than a line feed is next; it holds the longest such run, at the starting position, and the cursor stops after it |
| LegacyRules.MatchNewline | src/lexer/rules.rs:83-91 | a token exactly when a line feed is next; it consumes that one char and carries the starting position |
| LegacyRules.MatchIdent | src/lexer/rules.rs:105-121 | a token exactly when an alphabetic char or `_` is next; it holds that char and the longest run of alphanumeric chars or `_` after it |
| LegacyRules.DigitsEnd | src/lexer/rules.rs:145 | the end of the longest run of ASCII digits from an index |
| LegacyRules.DigitRun | src/lexer/rules.rs:145 | consuming ASCII digits stops at the end of the digit run and returns its text |
| LegacyRules.IntegerDigits | src/lexer/rules.rs:139-146 | the leading digit and the digits after it form the whole digit run |
| LegacyRules.FractionDigits | src/lexer/rules.rs:157-160 | the point and the digits after it form the fraction text |
| LegacyRules.FractionTest | src/lexer/rules.rs:149-155 | the two-char lookahead succeeds exactly when a point followed by an ASCII digit is next |
| LegacyRules.NumberFraction | src/lexer/rules.rs:148-163 | after the integer digits, a fraction is taken exactly when a point and a digit follow; the token text is everything consumed |
| LegacyRules.MatchNumber | src/lexer/rules.rs:135-167 | a token exactly when an ASCII digit is next; it holds the digit run and, when a point and a digit follow, the point and the fraction digits |
| LegacyRules.LongestFirst | src/lexer/rules.rs:202-203 | the sorted operator list has as many entries as the registered one |
| LegacyRules.SameOperators | src/lexer/rules.rs:202-203 | sorting keeps exactly the registered operators |
| LegacyRules.MatchOperatorFrom | src/lexer/rules.rs:205-219 | the scan of the sorted list only moves forward over the same input and leaves the state alone when nothing matches |
| LegacyRules.OperatorFromWinner | src/lexer/rules.rs:205-216 | a match is the first sorted operator whose peeked text equals it, advanced by its width |
| LegacyRules.OperatorFromNoneIff | src/lexer/rules.rs:205-219 | the scan fails exactly when no remaining operator equals its peeked text |
| LegacyRules.MatchOperator | src/lexer/rules.rs:200-220 | the rule as written only moves forward and leaves the state alone on failure |
| LegacyRules.PeekedByBytesIff | src/lexer/rules.rs:206-207 | with widths in bytes, the peeked text equals an operator exactly when it is at the cursor and its byte length equals its char count or nothing follows it |
| LegacyRules.PeekedIffWidth | src/lexer/rules.rs:206-207 | peeking n chars returns an operator no longer than n exactly when it is at the cursor and it is n chars long or ends the input |
| LegacyRules.PeekedByCharsIff | src/lexer/rules.rs:206-207 | with widths in chars, the peeked text equals an operator exactly when it is at the cursor |
| LegacyRules.OperatorLongestFirst | src/lexer/rules.rs:200-220 | the rule fails only when no registered operator matches; otherwise it returns a registered matching operator, advanced by its width, and no strictly wider operator matches |
| LegacyRules.NoWiderBeforeWinner | src/lexer/rules.rs:202-207 | when the list is sorted widest first, no operator wider than the winner matches |
| LegacyRules.MatchOperatorChars | src/lexer/rules.rs:200-220 | the corrected rule only moves forward and leaves the state alone on failure |
| LegacyRules.OperatorCharsLongestMatch | src/lexer/rules.rs:200-220 | the corrected rule fails exactly when no registered operator is at the cursor; otherwise it returns one that is, consumes exactly its text, and no longer one is at the cursor |
| LegacyRules.AsciiByteWidth | src/lexer/rules.rs:203 | an ASCII operator's byte length is its char count |
| LegacyRules.SameWidthsSameMatch | src/lexer/rules.rs:205-219 | when every operator's byte and char widths agree, both scans give the same result |
| LegacyRules.AsciiOperatorsAgree | src/lexer/rules.rs:200-220 | for ASCII operators the rule as written and the corrected rule give the same result |
| LegacyRules.DefaultOperatorsAscii | src/lexer/rules.rs:187-194 | every default operator is ASCII, so the default rule is unaffected by the width mix-up |
| LegacyRules.NonAsciiOperatorMissed | src/lexer/rules.rs:206 | as written, the operator "≠" is not matched on the input "≠1"; the corrected rule matches it |
| LegacyRules.MatchEof | src/lexer/rules.rs:234-242 | a token exactly at the end of input, at the current position, consuming nothing |
| LegacyRules.MatchRule | src/lexer/traits.rs:31-34 | every rule only moves forward over the same input and leaves the state alone when it fails |
| LegacyRules.SimpleGrammar | src/lexer/traits.rs:27-41 | the older rule trait has no quick check, so under the shared engine none of these rules gives a quick-check verdict |
| LegacyRules.TryWhitespace | src/lexer/rules.rs:57-69 | running the rule on a context gives the token and new state MatchWhitespace gives |
| LegacyRules.TryNewline | src/lexer/rules.rs:83-91 | running the rule on a context gives the token and new state MatchNewline gives |
| LegacyRules.TryIdent | src/lexer/rules.rs:105-121 | running the rule on a context gives the token and new state MatchIdent gives |
| LegacyRules.TryNumber | src/lexer/rules.rs:135-167 | running the rule on a context gives the token and new state MatchNumber gives |
| LegacyRules.TryNumberFraction | src/lexer/rules.rs:148-163 | the fraction step on a context gives what NumberFraction gives |
| LegacyRules.TryOperator | src/lexer/rules.rs:200-220 | running the rule on a context gives the token and new state MatchOperator gives |
| LegacyRules.TryEof | src/lexer/rules.rs:234-242 | running the rule on a context gives the token and new state MatchEof gives |
| LegacyRules.TryMatch | src/lexer/rules.rs:57-242 | dispatching on the rule gives what MatchRule gives |
| JsonLexing.Unescape | lexer-example/src/bin/json_lexer.rs:88-100 | the five known escapes decode to one char; any other escaped char is kept with its backslash |
| JsonLexing.StringBody | lexer-example/src/bin/json_lexer.rs:76-107 | a string body, when it closes, ends just after an unescaped quote within the input |
| JsonLexing.StringBodyStep | lexer-example/src/bin/json_lexer.rs:77-105 | one loop turn: an unescaped backslash sets the escape flag; any other char other than a closing quote adds its decoded text |
| JsonLexing.Then | lexer-example/src/bin/json_lexer.rs:90-102 | prefixing decoded text keeps success and failure, and on success prepends the text without moving the end |
| JsonLexing.ThenEmpty | lexer-example/src/bin/json_lexer.rs:90-102 | prefixing nothing changes nothing |
| JsonLexing.ThenClosed | lexer-example/src/bin/json_lexer.rs:79-82 | at an unescaped quote the body closes with the text read so far, just after the quote |
| JsonLexing.ThenThen | lexer-example/src/bin/json_lexer.rs:90-102 | prefixing two pieces in turn is prefixing their concatenation |
| JsonLexing.MatchString | lexer-example/src/bin/json_lexer.rs:65-110 | a token exactly when a quote is next and the body closes; no other char starts one; the token holds the decoded body and the cursor stops after the closing quote |
| JsonLexing.OneEscapeDecodes | lexer-example/src/bin/json_lexer.rs:83-100 | the escaped form of a char decodes back to that char |
| JsonLexing.EscapedBodyDecodes | lexer-example/src/bin/json_lexer.rs:76-107 | the escaped form of any text followed by a quote decodes back to that text and closes just after the quote |
| JsonLexing.StringRoundTrip | lexer-example/src/bin/json_lexer.rs:65-110 | lexing the quoted, escaped form of any text gives a string token holding that text and consumes exactly the quoted form, whatever follows |
| JsonLexing.UnterminatedString | lexer-example/src/bin/json_lexer.rs:78 | a body with no quote after it never closes, so the rule fails |
| JsonLexing.UnknownEscapeKept | lexer-example/src/bin/json_lexer.rs:95-98 | an unknown escape adds the backslash and the char and the body goes on after them |
| JsonLexing.IntegerEnd | lexer-example/src/bin/json_lexer.rs:127-161 | an integer part exists exactly when a digit, or a minus and then a digit, is next; it ends on a digit and holds only number chars |
| JsonLexing.FractionEnd | lexer-example/src/bin/json_lexer.rs:163-173 | a fraction is taken exactly when a point and then a digit are next; it ends on a digit |
| JsonLexing.SignEnd | lexer-example/src/bin/json_lexer.rs:179-183 | an exponent sign is consumed exactly when it is `+` or `-` |
| JsonLexing.ExponentEnd | lexer-example/src/bin/json_lexer.rs:175-192 | the intended exponent is taken only when it ends on a digit, and holds only number chars |
| JsonLexing.MantissaEnd | lexer-example/src/bin/json_lexer.rs:140-173 | the integer and fraction parts exist exactly when the integer part does, and end on a digit |
| JsonLexing.NumberEnd | lexer-example/src/bin/json_lexer.rs:124-194 | the intended number exists exactly when the integer part does, ends on a digit and holds only number chars |
| JsonLexing.MatchNumber | lexer-example/src/bin/json_lexer.rs:124-194 | the intended number rule: a token exactly when the number exists, whose text is exactly what was consumed; on failure the state is restored |
| JsonLexing.NumberTokenShape | lexer-example/src/bin/json_lexer.rs:124-194 | an intended number token is non-empty, starts with a minus or a digit, ends with a digit and holds only number chars |
| JsonLexing.ExponentAsWritten | lexer-example/src/bin/json_lexer.rs:175-192 | the exponent step as written only moves forward within the input |
| JsonLexing.ExponentAsWrittenCases | lexer-example/src/bin/json_lexer.rs:175-192 | as written: no mark leaves text and cursor alone; a mark without digits restores the cursor to the mark but drops only the last char read; a mark with digits takes them all |
| JsonLexing.MatchNumberAsWritten | lexer-example/src/bin/json_lexer.rs:124-194 | the number rule as written only moves forward and restores the state on failure |
| JsonLexing.ExponentAgrees | lexer-example/src/bin/json_lexer.rs:175-192 | the exponent as written moves the cursor as intended; its text differs only by a leftover mark after a signed mark without digits |
| JsonLexing.NumberAsWrittenKeepsMark | lexer-example/src/bin/json_lexer.rs:124-194 | the rule as written succeeds and moves the cursor exactly as intended; its text gains the exponent mark exactly when a signed mark has no digits |
| JsonLexing.SignedExponentWithoutDigits | lexer-example/src/bin/json_lexer.rs:185-189 | on "1e+" the rule as written returns the text "1e" while consuming only "1"; the intended rule returns "1" |
| JsonLexing.KeywordAhead | lexer-example/src/bin/json_lexer.rs:213-236 | a keyword token exactly when the rest of the input starts with `true`, `false` or `null`, with that keyword's text |
| JsonLexing.MatchKeyword | lexer-example/src/bin/json_lexer.rs:209-237 | a keyword token exactly when a keyword starts the rest; the cursor moves over exactly the keyword's text |
| JsonLexing.KeywordWithoutBoundary | lexer-example/src/bin/json_lexer.rs:213-236 | a keyword is matched whatever follows it, so `nullx` starts with a null token |
| JsonLexing.PunctuationFor | lexer-example/src/bin/json_lexer.rs:256-264 | a token exactly for the six punctuation chars |
| JsonLexing.PunctuationOneToOne | lexer-example/src/bin/json_lexer.rs:256-264 | distinct punctuation chars give distinct tokens |
| JsonLexing.MatchPunctuation | lexer-example/src/bin/json_lexer.rs:251-268 | a token exactly when a punctuation char is next; it consumes that one char |
| JsonLexing.MatchWhitespace | lexer-example/src/bin/json_lexer.rs:282-294 | a token exactly when a whitespace char is next; it holds the longest whitespace run |
| JsonLexing.MatchEof | lexer-example/src/bin/json_lexer.rs:308-316 | a token exactly at the end of input, consuming nothing |
| JsonLexing.MatchRule | lexer-example/src/bin/json_lexer.rs:323-332 | every rule, with the number rule as written, only moves forward over the same input |
| JsonLexing.JsonRulesInPriorityOrder | lexer-example/src/bin/json_lexer.rs:112-332 | `json_rules()` is registered in descending priority (15, 14, 13, 5, 1, -1), so `Lexer::new` keeps its order |
| JsonLexing.JsonGrammar | lexer-example/src/bin/json_lexer.rs:323-332 | none of the rules gives a quick-check verdict |
| JsonLexing.JsonRulesConfined | lexer-example/src/bin/json_lexer.rs:323-332 | the rules keep the engine's obligation: same input, forward only, state untouched on failure |
| JsonLexing.EofOnlyAtEnd | lexer-example/src/bin/json_lexer.rs:308-316 | before the end of input no rule produces an end-of-input token |
| JsonLexing.TokenizeHasNoEof | lexer-example/src/bin/json_lexer.rs:346-350 | the tokens `tokenize` collects never include an end-of-input token |
| JsonLexing.TryString | lexer-example/src/bin/json_lexer.rs:65-110 | the loop on a context gives the token and new state MatchString gives |
| JsonLexing.StringTurn | lexer-example/src/bin/json_lexer.rs:77-105 | one loop turn moves one char and keeps the decoded result of the whole body unchanged |
| JsonLexing.TryNumber | lexer-example/src/bin/json_lexer.rs:124-194 | running the rule on a context gives what MatchNumberAsWritten gives |
| JsonLexing.TryFraction | lexer-example/src/bin/json_lexer.rs:163-173 | the fraction step stops where FractionEnd says and appends exactly what it consumed |
| JsonLexing.TryExponent | lexer-example/src/bin/json_lexer.rs:175-192 | the exponent step gives the text and cursor ExponentAsWritten gives |
| JsonLexing.TryMarkAndSign | lexer-example/src/bin/json_lexer.rs:178-183 | the mark and an optional sign are consumed and appended |
| JsonLexing.TryKeyword | lexer-example/src/bin/json_lexer.rs:209-237 | running the rule on a context gives what MatchKeyword gives |
| JsonLexing.TryPunctuation | lexer-example/src/bin/json_lexer.rs:251-268 | running the rule on a context gives what MatchPunctuation gives |
| JsonLexing.TryWhitespace | lexer-example/src/bin/json_lexer.rs:282-294 | running the rule on a context gives what MatchWhitespace gives |
| JsonLexing.TryEof | lexer-example/src/bin/json_lexer.rs:308-316 | running the rule on a context gives what MatchEof gives |
| DemoLexing.NumberEnd | examples/pipeline-demo/src/main.rs:92-105 | a number exists exactly when a digit is next, and it ends after the cursor |
| DemoLexing.MatchNumber | examples/pipeline-demo/src/main.rs:90-111 | a token exactly when a number exists; its literal is exactly the text consumed; on failure nothing moves |
| DemoLexing.NumberTokenShape | examples/pipeline-demo/src/main.rs:90-111 | a number literal is digits with at most one point, and it is the longest: no digit follows it and no point follows one without a point |
| DemoLexing.TrailingDotKept | examples/pipeline-demo/src/main.rs:101-105 | a point with no digits after it is kept: "1." is one number |
| DemoLexing.OperatorFor | examples/pipeline-demo/src/main.rs:131-139 | a token exactly for the six operator and parenthesis chars |
| DemoLexing.OperatorOneToOne | examples/pipeline-demo/src/main.rs:131-139 | distinct operator chars give distinct tokens |
| DemoLexing.MatchOperator | examples/pipeline-demo/src/main.rs:128-142 | a token exactly when an operator char is next; it consumes that one char |
| DemoLexing.OperatorQuickCheck | examples/pipeline-demo/src/main.rs:121-126 | no verdict at the end of input; otherwise a sure match exactly for the six operator chars |
| DemoLexing.MatchWhitespace | examples/pipeline-demo/src/main.rs:148-156 | a token exactly when a whitespace char is next; the cursor moves past the whole run |
| DemoLexing.MatchEof | examples/pipeline-demo/src/main.rs:166-174 | a token exactly at the end of input, consuming nothing |
| DemoLexing.MatchRule | examples/pipeline-demo/src/main.rs:78-85 | every rule only moves forward over the same input |
| DemoLexing.QuickCheck | examples/pipeline-demo/src/main.rs:121-126 | only the operator rule gives quick-check verdicts |
| DemoLexing.CalcRulesConfined | examples/pipeline-demo/src/main.rs:78-85 | the rules keep the engine's obligation: same input, forward only, state untouched on failure |
| DemoLexing.CalcQuickChecksSound | examples/pipeline-demo/src/main.rs:121-126 | the operator rule's quick check never rules out a match it would make |
| DemoLexing.EofOnlyAtEnd | examples/pipeline-demo/src/main.rs:166-174 | before the end of input no rule produces an end-of-input token |
| DemoLexing.TokenizeHasNoEof | examples/pipeline-demo/src/main.rs:19 | the tokens the lexer collects never include an end-of-input token |
| DemoLexing.TryNumber | examples/pipeline-demo/src/main.rs:90-111 | running the rule on a context gives what MatchNumber gives |
| DemoLexing.TryFraction | examples/pipeline-demo/src/main.rs:101-105 | a point and the digits after it are consumed and appended, and nothing else |
| DemoLexing.TryOperator | examples/pipeline-demo/src/main.rs:128-142 | running the rule on a context gives what MatchOperator gives |
| DemoLexing.TryWhitespace | examples/pipeline-demo/src/main.rs:148-156 | running the rule on a context gives what MatchWhitespace gives |
| DemoLexing.TryEof | examples/pipeline-demo/src/main.rs:166-174 | running the rule on a context gives what MatchEof gives |
| DemoParsing.Precedence | examples/pipeline-demo/src/main.rs:207-212 | additive operators have precedence 10 and multiplicative ones 20 |
| DemoParsing.OpOf | examples/pipeline-demo/src/main.rs:305-313 | the four operator tokens, and only they, map to their binary operators |
| DemoParsing.Primary | examples/pipeline-demo/src/main.rs:282-303 | a primary only moves forward and, when it succeeds, consumes something |
| DemoParsing.Expression | examples/pipeline-demo/src/main.rs:256-280 | on success the expression consumed something and stopped where the operator loop must stop |
| DemoParsing.Climb | examples/pipeline-demo/src/main.rs:261-278 | on success the loop stopped at the end, at a non-operator or at an operator below the floor |
| DemoParsing.InfixPower | examples/pipeline-demo/src/main.rs:262-267 | an operator binds at its precedence on the left and one more on the right |
| DemoParsing.PrefixOf | examples/pipeline-demo/src/main.rs:286-302 | numbers are atoms and a left parenthesis opens a group |
| DemoParsing.Build | examples/pipeline-demo/src/main.rs:268-277 | the built node is the binary node of the given operator over the two operands, and takes the left operand's position |
| DemoParsing.ExpressionIsPratt | examples/pipeline-demo/src/main.rs:256-280 | precedence climbing gives the same expression as binding-power parsing, and the same cursor on success |
| DemoParsing.PrimaryIsPrefix | examples/pipeline-demo/src/main.rs:282-303 | a primary is the binding-power parser's prefix step |
| DemoParsing.ClimbIsOperators | examples/pipeline-demo/src/main.rs:261-278 | the operator loop is the binding-power parser's operator loop |
| DemoParsing.ThreeOperands | examples/pipeline-demo/src/main.rs:256-280 | in x op1 y op2 z the second operator takes y exactly when its precedence is higher, so equal precedence groups to the left |
| DemoParsing.SubtractionAssociatesLeft | examples/pipeline-demo/src/main.rs:256-280 | 1-2-3 parses as (1-2)-3 |
| DemoParsing.ProductBindsTighter | examples/pipeline-demo/src/main.rs:256-280 | 1+2*3 parses as 1+(2*3) |
| DemoParsing.LeadingIndex | examples/pipeline-demo/src/main.rs:286-293 | the index of the first token after a run of left parentheses |
| DemoParsing.ExpressionLeads | examples/pipeline-demo/src/main.rs:268-271 | an expression's position is that of its first number |
| DemoParsing.PrimaryLeads | examples/pipeline-demo/src/main.rs:286-293 | a primary's position is that of its first number |
| DemoParsing.ClimbKeepsPosition | examples/pipeline-demo/src/main.rs:268-277 | the operator loop keeps the position of the left operand |
| DemoParsing.ExprAttempt | examples/pipeline-demo/src/main.rs:235-244 | the rule either parses an expression from the cursor and moves past it, or restores the cursor |
| DemoParsing.ExprPriority | examples/pipeline-demo/src/main.rs:246-248 | the expression rule's priority is 100 |
| DemoParsing.ExprRulesConfined | examples/pipeline-demo/src/main.rs:251-254 | the rule keeps the parser's obligation and consumes a token whenever it succeeds |
| DemoParsing.NextNodeIsExprAttempt | examples/pipeline-demo/src/main.rs:251-254 | with the one rule, the parser's next node is the expression rule's attempt |
| DemoParsing.DrainAfterFirstNumber | examples/pipeline-demo/src/main.rs:20-23 | with only 3 pushed, the streaming drain takes 3 as a whole expression |
| DemoParsing.DrainStuckAtOperator | examples/pipeline-demo/src/main.rs:235-244 | at an operator no expression starts, so the drain gives nothing and stays put |
| DemoParsing.BatchParsesSum | examples/pipeline-demo/src/main.rs:256-280 | parsed in one batch, 3+4 is the sum |
| DemoParsing.StreamingTakesFirstOperandAlone | examples/pipeline-demo/src/main.rs:19-23 | fed one token at a time, 3+4 yields only the node of 3, while a batch parse yields the sum |
| DemoParsing.ParseExpression | examples/pipeline-demo/src/main.rs:256-280 | on a token context, the result and cursor are those of Expression |
| DemoParsing.ParsePrimary | examples/pipeline-demo/src/main.rs:282-303 | on a token context, the result and cursor are those of Primary |
| DemoParsing.ClimbLoop | examples/pipeline-demo/src/main.rs:261-278 | the loop on a token context gives the result and cursor of Climb |
| DemoParsing.TryExpression | examples/pipeline-demo/src/main.rs:235-244 | the rule on a token context gives what ExprAttempt gives |
| DemoFiltering.FilterToken | examples/pipeline-demo/src/main.rs:369-374 | whitespace is dropped and every other token is kept unchanged |
| DemoFiltering.WithoutWhitespace | examples/pipeline-demo/src/main.rs:331-338 | the filtered list is no longer and holds no whitespace |
| DemoFiltering.FilteredPoll | examples/pipeline-demo/src/main.rs:331-338 | polling only moves forward and never returns whitespace |
| DemoFiltering.FilteredPollIsTokenizeFiltered | examples/pipeline-demo/src/main.rs:331-338 | polling repeatedly gives exactly the lexer's tokens with whitespace removed, in order |
| DemoFiltering.FilteredSignal | examples/pipeline-demo/src/main.rs:345-357 | the next signal only moves forward and never supplies whitespace |
| DemoFiltering.FilteredSignalIsPoll | examples/pipeline-demo/src/main.rs:345-357 | the next signal supplies the next polled token, signals the end when the lexer is at the end, and otherwise nothing |
| DemoFiltering.FilteringProducer.constructor | examples/pipeline-demo/src/main.rs:321-325 | the producer wraps the given lexer |
| DemoFiltering.FilteringProducer.PollToken | examples/pipeline-demo/src/main.rs:331-338 | the loop gives the token and lexer state FilteredPoll gives |
| DemoFiltering.FilteringProducer.NextSignal | examples/pipeline-demo/src/main.rs:345-357 | the loop gives the signal and lexer state FilteredSignal gives |
| DemoFiltering.FilteringProducer.HandleSignal | examples/pipeline-demo/src/main.rs:364-366 | passing a signal on leaves the lexer as it was |
| ParseContexts.PeekTok | parser-framework/src/context.rs:93-95 | the token at the cursor exactly when the cursor is before the end |
| ParseContexts.PeekAt | parser-framework/src/context.rs:97-99 | the token k places after the cursor exactly when that place holds one |
| ParseContexts.AdvanceTokTakesPeek | parser-framework/src/context.rs:101-115 | advancing returns the peeked token and moves one place, and at the end of the buffer changes nothing |
| ParseContexts.TokenContext.constructor | parser-framework/src/context.rs:51-66 | a context over the given tokens starts at the first, with no more to come |
| ParseContexts.TokenContext.Streaming | parser-framework/src/streaming.rs:22-29 | a streaming context starts empty and counts as finished until a token is pushed |
| ParseContexts.TokenContext.PushToken | parser-framework/src/streaming.rs:32-38 | pushing appends the token, keeps the cursor and marks more input as possible |
| ParseContexts.TokenContext.MarkFinished | parser-framework/src/streaming.rs:41-43 | only the finished flag changes |
| ParseContexts.TokenContext.Peek | parser-framework/src/streaming.rs:50-52 | the token at the cursor, as PeekTok says |
| ParseContexts.TokenContext.PeekAhead | parser-framework/src/streaming.rs:54-56 | the token k places on, as PeekAt says |
| ParseContexts.TokenContext.Advance | parser-framework/src/streaming.rs:58-65 | the token and new state of AdvanceTok |
| ParseContexts.TokenContext.CurrentPosition | parser-framework/src/streaming.rs:67-69 | the position is always the default one, since tokens expose none |
| ParseContexts.TokenContext.IsEof | parser-framework/src/streaming.rs:71-73 | at the end exactly when no more input will come and every token is consumed |
| ParseContexts.TokenContext.TokenIndex | parser-framework/src/streaming.rs:75-77 | the cursor's index |
| ParseContexts.TokenContext.Checkpoint | parser-framework/src/streaming.rs:79-81 | a checkpoint records the cursor and the position |
| ParseContexts.TokenContext.Restore | parser-framework/src/streaming.rs:83-86 | restoring moves the cursor back to the checkpoint and changes nothing else |
| ParseContexts.TokenContext.SetState | parser-framework/src/streaming.rs:83-86 | setting a state of the same tokens makes it the context's state |
| ParseContexts.CheckpointRoundTrip | parser-framework/src/context.rs:135-149 | restoring a checkpoint just taken leaves the state as it was |
| Parsers.SortKeepsConfined | parser-framework/src/parser.rs:24-33 | sorting the rules by priority keeps their obligation to stay on the same tokens and move only forward |
| Parsers.DefaultSpan | parser-framework/src/traits.rs:12-14 | a span exists exactly when a position does, and starts and ends there |
| Parsers.DefaultTransition | parser-framework/src/traits.rs:38-40 | the default transition reports no change and leaves the node as it was |
| Parsers.NextNodeEffect | parser-framework/src/parser.rs:62-82 | a failed next_node leaves the context as it was; a successful one only moves the cursor forward over the same tokens |
| Parsers.SameCursorSameState | parser-framework/src/parser.rs:93 | a state reached by moving forward with the same index is the same state, so comparing token indices detects any change |
| Parsers.ParseSpec | parser-framework/src/parser.rs:88-107 | parsing only moves the cursor forward and yields at most one node per remaining token |
| Parsers.ParseStopsStuck | parser-framework/src/parser.rs:88-107 | parsing stops only at the end of input or where next_node leaves the state unchanged |
| Parsers.ParseConsumesAll | parser-framework/src/parser.rs:88-107 | with rules that always consume and always match before the end, a finished input is parsed to its last token |
| Parsers.ParseAccumulate | parser-framework/src/parser.rs:90-105 | one loop turn: a stuck step ends the loop, any other adds its node and goes on from the new state |
| Parsers.DrainSpec | parser-framework/src/streaming.rs:119-130 | a drain that finishes within the fuel returns at most one node per unit of fuel |
| Common.Prepend | parser-framework/src/streaming.rs:120-124 | prefixing items keeps success and failure and puts the items in front; the older lexer's `tokenize` and the parser's drain both collect this way |
| Common.PrependTwice | parser-framework/src/streaming.rs:120-124 | prefixing in two steps is prefixing the concatenation |
| Parsers.DrainNeverEndsOnStuckSuccess | parser-framework/src/streaming.rs:121-128 | a rule that succeeds without consuming makes the drain loop for ever: it never finishes within any fuel |
| Parsers.DrainAgreesWithParse | parser-framework/src/streaming.rs:108-111 | on a finished input with consuming rules, the drain gives the same nodes and state as parse |
| Parsers.DrainFuelMonotone | parser-framework/src/streaming.rs:119-130 | once the drain finishes within some fuel, more fuel gives the same result |
| Parsers.DrainAccumulate | parser-framework/src/streaming.rs:121-128 | one loop turn: a failed step ends the drain, a successful one adds its node and goes on |
| Parsers.Parser.constructor | parser-framework/src/parser.rs:24-33 | the parser holds the context and the rules sorted by descending priority |
| Parsers.Parser.FromTokens | parser-framework/src/parser.rs:36-45 | a parser over a new context holding the given tokens from the first, with no more to come |
| Parsers.Parser.NextNode | parser-framework/src/parser.rs:62-82 | the loop gives the node and context state NextNodeSpec gives |
| Parsers.Parser.ParseOne | parser-framework/src/parser.rs:112-114 | the same result as NextNode |
| Parsers.Parser.Parse | parser-framework/src/parser.rs:88-107 | the loop gives the nodes and context state ParseSpec gives |
| Parsers.Parser.DrainReadyNodes | parser-framework/src/streaming.rs:119-130 | when the loop finishes within the fuel it gives the nodes and state DrainSpec gives; otherwise DrainSpec also runs out |
| Parsers.Parser.PushToken | parser-framework/src/streaming.rs:103-106 | pushing appends the token, marks the input unfinished, and drains as DrainSpec says |
| Parsers.Parser.Finish | parser-framework/src/streaming.rs:108-111 | finishing marks the input finished and drains as DrainSpec says |
| LazyContexts.Max | parser-framework/src/lazy_context.rs:168-170 | the larger of two indices, at least both and one of them |
| LazyContexts.Min | parser-framework/src/lazy_context.rs:72-78 | the smaller of two counts, at most both and one of them |
| LazyContexts.PrunedWindow | parser-framework/src/lazy_context.rs:60-80 | pruning keeps the cursor's global index, drops every committed token, and keeps at most half the window size of history before the cursor, dropping no more than that needs |
| LazyContexts.PruneIdle | parser-framework/src/lazy_context.rs:60-80 | with nothing newly committed and no excess history, pruning changes nothing |
| LazyContexts.PruneIdempotent | parser-framework/src/lazy_context.rs:60-80 | pruning twice is pruning once |
| LazyContexts.LazyContext.TokenIndex | parser-framework/src/lazy_context.rs:140-142 | the cursor's global index is the window's base plus the offset in it |
| LazyContexts.LazyContext.constructor | parser-framework/src/lazy_context.rs:34-44 | a new context has pulled nothing, stands at the start of the whole stream and has committed nothing |
| LazyContexts.LazyContext.BufferIsStream | parser-framework/src/lazy_context.rs:16-20 | every buffered token is the stream's token at its global index |
| LazyContexts.LazyContext.EnsureBuffer | parser-framework/src/lazy_context.rs:48-57 | it succeeds exactly when the stream has a token k places past the cursor, pulling only as far as needed and keeping the cursor and buffered tokens |
| LazyContexts.LazyContext.PeekAt | parser-framework/src/lazy_context.rs:92-105 | the token k places past the cursor in the whole stream, without moving the cursor |
| LazyContexts.LazyContext.Peek | parser-framework/src/lazy_context.rs:88-90 | the stream's token at the cursor, without moving the cursor |
| LazyContexts.LazyContext.MaybePrune | parser-framework/src/lazy_context.rs:60-80 | the window becomes PrunedWindow's and the cursor's place in the stream is kept |
| LazyContexts.LazyContext.Advance | parser-framework/src/lazy_context.rs:107-125 | the token and cursor move a token context over the whole stream would make, then the history is pruned |
| LazyContexts.LazyContext.CurrentPosition | parser-framework/src/lazy_context.rs:127-129 | the stored position |
| LazyContexts.LazyContext.IsEof | parser-framework/src/lazy_context.rs:131-138 | at the end exactly when the whole stream is consumed |
| LazyContexts.LazyContext.Checkpoint | parser-framework/src/lazy_context.rs:144-146 | a checkpoint records the global index and the position |
| LazyContexts.LazyContext.Restore | parser-framework/src/lazy_context.rs:148-164 | it succeeds exactly when the target is inside the buffered window, then moves the cursor there; a target before the window or past the buffer, where the source panics, changes nothing |
| LazyContexts.LazyContext.Commit | parser-framework/src/lazy_context.rs:166-172 | the committed index rises to the cursor, and the window is pruned so no committed token stays buffered |
| LazyContexts.RestoreAfterPeek | parser-framework/src/lazy_context.rs:144-164 | peeking and then restoring a checkpoint taken before leaves the view as it was |
| Pratt.Parse | parser-framework/src/pratt.rs:53-104 | for any configuration of prefix forms (reject, atom, group, unary at its own binding power, call with an optional argument) and infix forms (fail, postfix, right operand with a build that may fail): fails at the end of input; on success the cursor has moved past at least one token and stops at the end, at a non-operator or at an operator binding less than the floor |
| Pratt.PrefixPart | parser-framework/src/pratt.rs:61-68 | the prefix step moves forward within the tokens; a rejected token or an atom consumes nothing more, and only an atom succeeds that way; a unary that succeeds consumed its operand; a group that succeeds consumed at least an expression and ends on its closing token; a call that consumed anything began at its opening token, and if it succeeds it ends on its closing token |
| Pratt.InfixPart | parser-framework/src/pratt.rs:90-99 | the infix step moves forward within the tokens; a failing infix form fails without consuming, a postfix form consumes nothing, and a right operand that succeeds consumed at least one token |
| Pratt.UnaryOperand | parser-framework/src/pratt.rs:61-99 | in u a op b, with u a unary prefix and a total build, all four tokens are consumed and the operator is applied to a and b before u when its left binding power reaches u's binding power; otherwise u applies to a alone |
| Pratt.CallKeepsFailedArgument | parser-framework/benches/batch_bench.rs:66-81 | a call prefix whose argument parse fails still succeeds when the closing token follows, and is built without an argument |
| Pratt.CallAlone | parser-framework/benches/batch_bench.rs:66-84 | a call prefix with no opening token after it is its stand-alone node and consumes only its own token |
| Pratt.Operators | parser-framework/src/pratt.rs:71-101 | on success the loop stopped at the end, at a non-operator or at an operator binding less than the floor, without consuming it |
| Pratt.ThreeOperands | parser-framework/src/pratt.rs:84-94 | in a op1 b op2 d the second operator takes b exactly when its left binding power reaches the first's right binding power; otherwise the first groups to the left |
| Pratt.ParsePratt | parser-framework/src/pratt.rs:53-104 | on a token context, the node and cursor are those of Parse, and the tokens are untouched |
| Pratt.ParsePrefix | parser-framework/src/pratt.rs:61-68 | on a token context, the prefix step gives the node and cursor of PrefixPart |
| Pratt.ParseInfix | parser-framework/src/pratt.rs:90-99 | on a token context, the infix step gives the node and cursor of InfixPart |
| Pratt.OperatorLoop | parser-framework/src/pratt.rs:71-101 | on a token context, the loop gives the node and cursor of Operators |
| PrattExample.InfixPower | pipeline-core/benches/pipeline_bench.rs:119-125 | exactly the four operators bind, additive at (10, 11) and multiplicative at (20, 21), each with left power below right power |
| PrattExample.PrefixOf | pipeline-core/benches/pipeline_bench.rs:126-143 | numbers are atoms, a left parenthesis opens a group, and nothing else starts an expression |
| PrattExample.InfixOf | pipeline-core/benches/pipeline_bench.rs:144-163 | exactly the tokens with a binding power parse a right operand; every other token makes the infix step fail |
| PrattExample.SubtractionAssociatesLeft | pipeline-core/benches/pipeline_bench.rs:119-125 | 1-2-3 parses as (1-2)-3 |
| PrattExample.ProductBindsTighter | pipeline-core/benches/pipeline_bench.rs:119-125 | 1+2*3 parses as 1+(2*3) |
| PrattExample.ProductBeforeSum | pipeline-core/benches/pipeline_bench.rs:119-125 | 1*2+3 parses as (1*2)+3 |
| PrattExample.NoPrefixFails | parser-framework/src/pratt.rs:61-68 | a first token that starts no expression is consumed anyway and the parse fails |
| PrattExample.UnclosedGroupFails | pipeline-core/benches/pipeline_bench.rs:132-139 | a group without its closing parenthesis fails |
| PrattExample.ExprAttempt | pipeline-core/benches/pipeline_bench.rs:174-176 | the rule either fails or consumes at least one token, moving forward over the same tokens |
| PrattExample.ExprQuickCheck | pipeline-core/benches/pipeline_bench.rs:177-179 | always a verdict: a possible match exactly on a number or a left parenthesis |
| BatchExample.InfixPower | parser-framework/benches/batch_bench.rs:47-53 | exactly the four operators bind, each with left power below right power |
| BatchExample.PrefixOf | parser-framework/benches/batch_bench.rs:64-96 | numbers are atoms, identifiers are calls, a left parenthesis opens a group |
| BatchExample.InfixOf | parser-framework/benches/batch_bench.rs:99-120 | exactly the tokens with a binding power parse a right operand |
| BatchExample.CallWithArgument | parser-framework/benches/batch_bench.rs:66-78 | f(1) is a call with the one argument and consumes all four tokens |
| BatchExample.EmptyCallFails | parser-framework/benches/batch_bench.rs:66-81 | f() fails: the argument parse consumes the closing parenthesis and no closing token is left |
| BatchExample.CallWithoutArgument | parser-framework/benches/batch_bench.rs:66-81 | f(+) is a call with no argument, because the failed argument parse leaves the closing parenthesis in place |
| BatchExample.VariablePlusNumber | parser-framework/benches/batch_bench.rs:66-84 | an identifier with no opening parenthesis after it is a variable: x + 1 adds the variable and the number |
| PrattExample.ExprQuickCheckSound | pipeline-core/benches/pipeline_bench.rs:177-179 | when the quick check rules a parse out, the parse would indeed fail |
| SimpleParsing.NumberAttempt | parser-framework/examples/simple_parser.rs:72-80 | a number node exactly when a number token is next, consuming that one token; otherwise nothing moves |
| SimpleParsing.BinaryAttempt | parser-framework/examples/simple_parser.rs:107-152 | a node exactly at number, configured operator, number; it consumes the three tokens, holds both numbers and takes the operator's position; a failure part-way leaves at most what was read consumed |
| SimpleParsing.Priority | parser-framework/examples/simple_parser.rs:82-84 | the number rule has priority 10 and the binary rule 15 |
| SimpleParsing.QuickCheck | parser-framework/examples/simple_parser.rs:86-88 | no verdict at the end of input; otherwise a possible match exactly on a number token |
| SimpleParsing.SimpleRulesConfined | parser-framework/examples/simple_parser.rs:68-162 | both rules stay on the same tokens, move only forward and consume a token whenever they succeed |
| SimpleParsing.SimpleQuickChecksSound | parser-framework/examples/simple_parser.rs:86-88 | a quick check that rules a rule out is right: that rule would fail |
| SimpleParsing.BinaryRuleFirst | parser-framework/examples/simple_parser.rs:226-237 | whichever order they are registered in, the binary rule is tried before the number rule |
| SimpleParsing.NextNodeBinaryOrNumber | parser-framework/examples/simple_parser.rs:226-239 | the parser's next node is the binary node where number, operator, number follows, and the number rule's result otherwise |
| SimpleParsing.AdditionExample | parser-framework/examples/simple_parser.rs:200-239 | 3 + 4 parses as one addition node at the plus sign's position, consuming all three tokens |
| SimpleParsing.OtherOperatorLeavesNumber | parser-framework/examples/simple_parser.rs:268-305 | with the rule for plus, 10 - 3 yields only the number 10 |
| SimpleParsing.TryNumber | parser-framework/examples/simple_parser.rs:72-80 | the rule on a token context gives what NumberAttempt gives |
| SimpleParsing.TryBinary | parser-framework/examples/simple_parser.rs:107-152 | the rule on a token context gives what BinaryAttempt gives |
| Pipelines.BatchRun | pipeline-core/src/lib.rs:36-49 | the nodes are those of parsing, from the first token, every token the lexer produces for the input |
| Pipelines.RunWithLexer | pipeline-core/src/lib.rs:55-69 | the nodes are those of parsing every token the given lexer has still to produce |
| Pipelines.RunWithFreshLexerIsRun | pipeline-core/src/lib.rs:51-69 | handing run_with_lexer a lexer fresh from the input gives what run gives |
| Pipelines.BatchParsesEveryToken | pipeline-core/src/lib.rs:36-49 | when every parser rule consumes on success and some rule matches wherever tokens remain, the batch pipeline parses every token |
| Pipelines.StepExtendsResults | pipeline-core/src/lib.rs:121-176 | one loop iteration only appends to the collected nodes |
| Pipelines.RunExtendsResults | pipeline-core/src/lib.rs:121-176 | a run never takes back a node it collected |
| Pipelines.RunFuelMonotone | pipeline-core/src/lib.rs:121-176 | once a run ends within some number of iterations, allowing more changes nothing |
| Pipelines.AbortedWith | pipeline-core/src/lib.rs:144-149 | a reason exactly when the signals end with an abort |
| Pipelines.StepRouting | pipeline-core/src/lib.rs:124-172 | an iteration that goes on has sent the parser only tokens and the lexer only requests; one that ends leaves the routing closed |
| Pipelines.RunRouting | pipeline-core/src/lib.rs:121-176 | in a whole run the parser hears tokens then at most one end of input or abort, the lexer hears requests then at most one abort, and an abort reaches both sides with the same reason |
| Pipelines.SuppliedTokens | pipeline-core/src/lib.rs:135-138 | no more tokens than signals |
| Pipelines.SuppliedTokensSnoc | pipeline-core/src/lib.rs:135-138 | a further signal adds its token, if it carries one, at the end |
| Pipelines.StepRelays | pipeline-core/src/lib.rs:124-159 | with a lexer as producer, an iteration keeps the tokens relayed so far followed by those still to come equal to the lexer's whole output, and the end of input is relayed only once nothing is left |
| Pipelines.StepWithoutSupply | pipeline-core/src/lib.rs:124-172 | an iteration that is not a token request relays no token and sends no end of input, and touches the lexer only to abort it |
| Pipelines.SupplyRelays | pipeline-core/src/lib.rs:130-159 | answering a token request keeps relayed tokens followed by those still to come equal to the lexer's whole output |
| Pipelines.RelayOneMore | pipeline-core/src/lib.rs:135-138 | relaying the next token moves it from the tokens still to come to those relayed |
| Pipelines.RelayEnd | pipeline-core/src/lib.rs:139-143 | relaying the end of input adds no token |
| Pipelines.SupplyEffect | pipeline-core/src/lib.rs:130-157 | a token answer is relayed to the parser; an end of input or no answer is relayed as the end of input |
| Pipelines.TokenizeAfterSignal | pipeline-core/src/lib.rs:133-143 | the lexer's answer is its next token, followed by the rest of its output, or the end of input with nothing left |
| Pipelines.LexerRunRelaysTokens | pipeline-core/src/lib.rs:121-176 | with a lexer as producer, the parser is sent the lexer's tokens in order, all of them when the run ends at the end of input |
| Pipelines.RunRelays | pipeline-core/src/lib.rs:121-176 | from any state where relayed and remaining tokens make up the whole output, the run sends a prefix of it, all of it when it ends at the end of input |
| Pipelines.RelaysPrefix | pipeline-core/src/lib.rs:135-138 | the tokens relayed so far are a prefix of the whole output |
| Pipelines.StepEndsWith | pipeline-core/src/lib.rs:139-143 | an iteration that ends with the end of input has added exactly that signal |
| Pipelines.Run | pipeline-core/src/lib.rs:121-176 | when the loop ends within the fuel, the nodes are those of RunSpec; otherwise RunSpec also needs more |
| Pipelines.Iteration | pipeline-core/src/lib.rs:124-172 | one loop iteration gives the state Step gives |
| Pipelines.EndInput | pipeline-core/src/lib.rs:139-143 | the parser is told the end of input and what finish drains is collected |
| Pipelines.AbortSides | pipeline-core/src/lib.rs:144-149 | the abort goes to the parser and then to the lexer with the same reason |
| MarkdownLexing.CappedRunEnd | examples/markdown-renderer/src/lexer_rules.rs:17-20 | the counting loop stops after `cap` copies, at the end of input or at the first other char, and everything it passed is the counted char |
| MarkdownLexing.CappedRunEndStep | examples/markdown-renderer/src/lexer_rules.rs:17-20 | one iteration of the counting loop: with budget left and the char next, the run goes on from the following char with one less to take; otherwise it ends here |
| MarkdownLexing.MatchCounted | examples/markdown-renderer/src/lexer_rules.rs:12-27 | a counting rule yields a token exactly when its char is next; on failure nothing moves, on success at least one and at most `cap` chars are consumed and the token carries that count and the start position |
| MarkdownLexing.MatchOne | examples/markdown-renderer/src/lexer_rules.rs:37-55 | a one-char rule yields its token exactly when its char is next, and consumes that one char |
| MarkdownLexing.MatchBracket | examples/markdown-renderer/src/lexer_rules.rs:181-203 | the bracket rule matches exactly when one of `[`, `]`, `(`, `)` is next, and consumes one char |
| MarkdownLexing.MatchText | examples/markdown-renderer/src/lexer_rules.rs:214-237 | the text rule matches exactly when a plain char is next, consumes the whole run of plain chars and carries that run as its content |
| MarkdownLexing.MatchEof | examples/markdown-renderer/src/lexer_rules.rs:247-261 | the end-of-input rule matches exactly at the end and consumes nothing |
| MarkdownLexing.MatchRule | examples/markdown-renderer/src/lexer_rules.rs:7-261 | every rule leaves the buffer alone, keeps the cursor valid, only moves forward, and leaves the cursor where it was when it fails |
| MarkdownLexing.MarkdownRulesConfined | examples/markdown-renderer/src/lexer_rules.rs:264-276 | every rule of the set meets the engine's rule obligation (forward moves on a valid cursor) |
| MarkdownLexing.MarkdownQuickChecksSound | examples/markdown-renderer/src/lexer_rules.rs:8-10 | each quick check answers "cannot match" only where its rule indeed fails |
| MarkdownLexing.SortedOrder | examples/markdown-renderer/src/lexer_rules.rs:264-276 | sorting the rule set by priority (50, 45, 40, 35, 35, 30, 30, 1, -10; ties kept in listed order) tries Hash, Backtick, Newline, Dash, Brackets, Star, Underscore, Text, Eof |
| MarkdownLexing.HashCount | examples/markdown-renderer/src/lexer_rules.rs:12-27 | a hash token counts between one and six `#`, the number consumed, and stops at six or before a non-`#` |
| MarkdownLexing.BacktickCount | examples/markdown-renderer/src/lexer_rules.rs:60-85 | a backtick token counts between one and three backticks, the number consumed, and stops at three or before another char |
| MarkdownLexing.StarCount | examples/markdown-renderer/src/lexer_rules.rs:90-115 | a star token counts one or two `*`, the number consumed, and stops at two or before another char |
| MarkdownLexing.UnderscoreCount | examples/markdown-renderer/src/lexer_rules.rs:120-145 | an underscore token counts one or two `_`, the number consumed, and stops at two or before another char |
| MarkdownLexing.SingleCount | examples/markdown-renderer/src/lexer_rules.rs:37-208 | the dash, bracket and newline rules consume exactly one char when they match |
| MarkdownLexing.TextIsMaximalRun | examples/markdown-renderer/src/lexer_rules.rs:214-237 | a text token is non-empty, holds only plain chars and ends at the end of input or before a special char |
| MarkdownLexing.MatchedLexeme | examples/markdown-renderer/src/lexer_rules.rs:7-242 | away from the end, every token a rule yields stands for exactly the non-empty text the rule consumed |
| MarkdownLexing.SomeRuleMatches | examples/markdown-renderer/src/lexer_rules.rs:264-276 | away from the end some rule that its quick check does not skip matches the next char |
| MarkdownLexing.MarkdownNextLexeme | examples/markdown-renderer/src/lexer_rules.rs:264-276 | with every rule of the set present, `next` yields a token wherever input remains, moves forward, and the token's text is what it consumed |
| MarkdownLexing.MarkdownTokenizeLossless | examples/markdown-renderer/src/lexer_rules.rs:264-276 | lexing with the whole rule set runs to the end of input, and the tokens' texts joined are the remaining input |
| MarkdownLexing.MarkdownLexesWholeInput | examples/markdown-renderer/src/lexer_rules.rs:264-276 | a lexer built from the rule set turns any input into tokens whose texts spell the input out |
| MarkdownLexing.CountRun | examples/markdown-renderer/src/lexer_rules.rs:17-20 | the counting loop on a context ends where the capped run ends and returns the number of chars consumed |
| MarkdownLexing.TryCounted | examples/markdown-renderer/src/lexer_rules.rs:12-27 | a counting rule run on a context gives the token and new state of its value-level definition |
| MarkdownLexing.TryOne | examples/markdown-renderer/src/lexer_rules.rs:37-55 | a one-char rule run on a context gives the token and new state of its value-level definition |
| MarkdownLexing.TryRule | examples/markdown-renderer/src/lexer_rules.rs:7-261 | every rule's `try_match` on a context gives the token and new state of its value-level definition |
| MarkdownAst.NodePosition | examples/markdown-renderer/src/ast.rs:47-57 | every node reports a position, the one it was built with |
| MarkdownAst.NodeState | examples/markdown-renderer/src/ast.rs:62-73 | a block node reports its stored state; raw text always reports `Incomplete` |
| MarkdownAst.SetState | examples/markdown-renderer/src/ast.rs:75-87 | a block node gets the new state and keeps everything else; raw text is left unchanged |
| MarkdownAst.Transition | examples/markdown-renderer/src/ast.rs:89-92 | no trigger changes a node, and the call reports that nothing changed |
| MarkdownAst.SetThenGet | examples/markdown-renderer/src/ast.rs:62-87 | reading the state back after setting it gives the state set, except on raw text, which stays `Incomplete`; kind and position never change |
| MarkdownAst.SetStateLastWins | examples/markdown-renderer/src/ast.rs:75-87 | setting twice is setting the second state, and setting a node's own state changes nothing |
| MarkdownParsing.SkipBlankText | examples/markdown-renderer/src/parser_rules.rs:28-32 | one blank text token after a marker is skipped, and nothing else is |
| MarkdownParsing.HeadingBody | examples/markdown-renderer/src/parser_rules.rs:38-55 | the heading loop only moves forward within the tokens |
| MarkdownParsing.HeadingBodyReadsLine | examples/markdown-renderer/src/parser_rules.rs:38-55 | the heading loop collects the texts up to the first line feed or `Eof`, steps past a line feed but not past `Eof`, and reports whether it met a line feed |
| MarkdownParsing.HeadingAttempt | examples/markdown-renderer/src/parser_rules.rs:14-70 | a heading is parsed exactly when a `#` run is current; it takes the run's count as level and consumes tokens; otherwise the cursor stays |
| MarkdownParsing.HeadingContent | examples/markdown-renderer/src/parser_rules.rs:28-62 | a heading holds the texts of the rest of its line after an optional blank, and is complete exactly when a line feed ends the line |
| MarkdownParsing.CodeBody | examples/markdown-renderer/src/parser_rules.rs:127-148 | the code loop only moves forward within the tokens |
| MarkdownParsing.CodeBodyReadsToFence | examples/markdown-renderer/src/parser_rules.rs:127-148 | the code loop gathers the texts and line feeds up to the first fence or `Eof`, steps past a fence but not past `Eof`, and reports whether it found the fence |
| MarkdownParsing.FenceInfo | examples/markdown-renderer/src/parser_rules.rs:104-114 | a text token after the opening fence is consumed as the language line, and nothing else is |
| MarkdownParsing.FenceLanguage | examples/markdown-renderer/src/parser_rules.rs:104-114 | a language, when present, is non-empty and trimmed on both sides; there is none exactly when no text or only blank text follows the fence |
| MarkdownParsing.CodeBlockAttempt | examples/markdown-renderer/src/parser_rules.rs:88-163 | a code block is parsed exactly when a fence is current and a line feed follows the optional language; it consumes tokens; otherwise the cursor goes back |
| MarkdownParsing.CodeBlockFrom | examples/markdown-renderer/src/parser_rules.rs:121-163 | after the opening line the rule always yields a code block with the given language, having consumed tokens |
| MarkdownParsing.CodeBlockFromContent | examples/markdown-renderer/src/parser_rules.rs:123-162 | the code is the plain text up to the closing fence or `Eof`, and the block is complete exactly when the fence was found |
| MarkdownParsing.CodeBlockAttemptIsFrom | examples/markdown-renderer/src/parser_rules.rs:88-121 | a successful code block attempt is the body read from just after the opening line |
| MarkdownParsing.CodeBlockContent | examples/markdown-renderer/src/parser_rules.rs:88-163 | a parsed code block holds the plain text between its opening line and the closing fence or `Eof`, and is complete exactly when the fence closes it |
| MarkdownParsing.ListLoop | examples/markdown-renderer/src/parser_rules.rs:208-250 | the list loop only moves forward within the tokens |
| MarkdownParsing.ListLoopShape | examples/markdown-renderer/src/parser_rules.rs:208-250 | the list loop keeps every item non-empty text, never drops an item, stops at the end, at `Eof` or after a line feed no marker follows, and reports a line feed exactly when it consumed one |
| MarkdownParsing.ListAttempt | examples/markdown-renderer/src/parser_rules.rs:181-269 | a list is parsed only at a marker and consumes tokens; without a marker or with no items the cursor goes back |
| MarkdownParsing.ListItems | examples/markdown-renderer/src/parser_rules.rs:203-262 | a parsed list has at least one item, each non-empty text, and is complete exactly when it consumed a line feed |
| MarkdownParsing.SkipBlankTexts | examples/markdown-renderer/src/parser_rules.rs:285-298 | the leading-blank loop passes exactly the blank text tokens and stops at the first other token |
| MarkdownParsing.ParaLoop | examples/markdown-renderer/src/parser_rules.rs:315-348 | the paragraph loop moves forward within the tokens, and consumes whenever it adds content or closes the paragraph |
| MarkdownParsing.ParaLoopStep | examples/markdown-renderer/src/parser_rules.rs:315-348 | one iteration over a token that does not end the paragraph appends that token's text and goes on from the next |
| MarkdownParsing.ParaLoopEnds | examples/markdown-renderer/src/parser_rules.rs:315-348 | a complete paragraph ended on a line feed before a blank line, the end or a block start; an incomplete one stopped at `Eof` or the end |
| MarkdownParsing.ParaLoopSoft | examples/markdown-renderer/src/parser_rules.rs:317-336 | before its closing line feed the paragraph passes no `Eof` and only line feeds that continue it |
| MarkdownParsing.ParaLoopContent | examples/markdown-renderer/src/parser_rules.rs:315-348 | the paragraph content is the texts and soft line feeds of the body it passed |
| MarkdownParsing.ParaLoopStops | examples/markdown-renderer/src/parser_rules.rs:315-331 | at the end, at `Eof` or at a closing line feed the loop adds nothing |
| MarkdownParsing.ParaLoopShape | examples/markdown-renderer/src/parser_rules.rs:311-360 | the loop's content, end and completeness all together: texts of the body, then the closing line feed when complete, or `Eof`/the end when not |
| MarkdownParsing.ParagraphAttempt | examples/markdown-renderer/src/parser_rules.rs:280-367 | a paragraph is parsed only where, after blank text, no end, `Eof`, heading or fence follows; it has content and consumes tokens; otherwise the cursor goes back |
| MarkdownParsing.ParagraphContent | examples/markdown-renderer/src/parser_rules.rs:311-366 | a paragraph holds only text inlines and is complete exactly when it ended on a line feed before a blank line, the end or a block start |
| MarkdownParsing.RawLoop | examples/markdown-renderer/src/parser_rules.rs:383-399 | the raw text loop only moves forward within the tokens |
| MarkdownParsing.RawLoopReadsToEof | examples/markdown-renderer/src/parser_rules.rs:383-399 | the raw text loop gathers the plain text of every token up to `Eof` or the end and stops there |
| MarkdownParsing.RawTextAttempt | examples/markdown-renderer/src/parser_rules.rs:378-406 | raw text is yielded only when non-blank, after consuming tokens |
| MarkdownParsing.RawTextContent | examples/markdown-renderer/src/parser_rules.rs:378-406 | the fallback always moves to the first `Eof`, fails exactly when the text passed is blank, and otherwise carries that text (it does not restore on failure) |
| MarkdownParsing.BlockRulesConfined | examples/markdown-renderer/src/parser_rules.rs:414-423 | every block rule keeps to its tokens, moves only forward and consumes a token whenever it succeeds |
| MarkdownParsing.BlockQuickChecksSound | examples/markdown-renderer/src/parser_rules.rs:10-179 | the heading, code block and list quick checks answer "cannot match" only where their rule fails |
| MarkdownParsing.BlockRulesSorted | examples/markdown-renderer/src/parser_rules.rs:414-423 | the rules are built in priority order (100, 90, 80, 10, -100), so the parser tries them as listed |
| MarkdownParsing.NextNodeAtHash | examples/markdown-renderer/src/parser_rules.rs:9-75 | at a `#` run the parser's next node is the heading rule's result |
| MarkdownParsing.NextNodeAtFence | examples/markdown-renderer/src/parser_rules.rs:80-168 | at a fence followed by a line feed the next node is the code block rule's result |
| MarkdownParsing.HeadingExample | examples/markdown-renderer/src/parser_rules.rs:14-70 | `#`, ` Title`, line feed parse to a complete level-one heading holding ` Title`, with all three tokens consumed |
| MarkdownParsing.UnfinishedHeadingExample | examples/markdown-renderer/src/parser_rules.rs:14-70 | a lone `##` parses to an incomplete level-two heading with no content |
| MarkdownParsing.TryHeading | examples/markdown-renderer/src/parser_rules.rs:14-70 | the heading rule run on a parse context gives the node and new state of its value-level definition |
| MarkdownParsing.HeadingLoop | examples/markdown-renderer/src/parser_rules.rs:35-55 | the heading loop on a context ends where the value-level loop ends, with the same content and line-feed flag |
| MarkdownParsing.TryCodeBlock | examples/markdown-renderer/src/parser_rules.rs:88-163 | the code block rule run on a parse context gives the node and new state of its value-level definition |
| MarkdownParsing.CodeLoop | examples/markdown-renderer/src/parser_rules.rs:124-148 | the code loop on a context ends where the value-level loop ends, with the same code and fence flag |
| MarkdownParsing.TryList | examples/markdown-renderer/src/parser_rules.rs:181-269 | the list rule run on a parse context gives the node and new state of its value-level definition |
| MarkdownParsing.ListItemLoop | examples/markdown-renderer/src/parser_rules.rs:204-250 | the list loop on a context ends where the value-level loop ends, with the same items and line-feed flag |
| MarkdownParsing.PassLineFeed | examples/markdown-renderer/src/parser_rules.rs:210-228 | at a line feed the loop consumes it and goes on exactly when a list marker follows, then also consumes the marker and one blank text token after it |
| MarkdownParsing.TryParagraph | examples/markdown-renderer/src/parser_rules.rs:280-367 | the paragraph rule run on a parse context gives the node and new state of its value-level definition |
| MarkdownParsing.ParagraphLoop | examples/markdown-renderer/src/parser_rules.rs:312-348 | the paragraph loop on a context ends where the value-level loop ends, with the same content and completeness |
| MarkdownParsing.TryRawText | examples/markdown-renderer/src/parser_rules.rs:378-406 | the raw text rule run on a parse context gives the node and new state of its value-level definition |
| MarkdownParsing.RawTextLoop | examples/markdown-renderer/src/parser_rules.rs:380-399 | the raw text loop on a context ends where the value-level loop ends, with the same text |
| MarkdownRendering.InlineToTextAppend | examples/markdown-renderer/src/renderer.rs:161-172 | writing out two runs of inline elements is writing out each in turn |
| MarkdownRendering.PlainInlines | examples/markdown-renderer/src/renderer.rs:161-172 | plain text inlines are written out without markers: the text's length is the sum of their lengths |
| MarkdownRendering.ParaTextsRender | examples/markdown-renderer/src/renderer.rs:161-172 | the inlines a paragraph collects from tokens write out as exactly those tokens' plain text |
| MarkdownRendering.RawListLines | examples/markdown-renderer/src/renderer.rs:89-97 | an unfinished list gives one raw line per item, `- ` followed by the item's text |
| MarkdownRendering.ItemTexts | examples/markdown-renderer/src/renderer.rs:84-87 | a finished list's entries are its items' texts, one per item, in order |
| MarkdownRendering.RenderNode | examples/markdown-renderer/src/renderer.rs:44-127 | a complete node renders as one structured item, an incomplete one only as raw text; an unfinished list gives one line per item, any other node one item |
| MarkdownRendering.RenderAllAppend | examples/markdown-renderer/src/renderer.rs:44-128 | rendering two runs of nodes is rendering each in turn |
| MarkdownRendering.CompleteNodesRenderStructured | examples/markdown-renderer/src/renderer.rs:41-131 | a document of complete nodes renders as one structured item per node, in order |
| MarkdownRendering.IncompleteNodesRenderRaw | examples/markdown-renderer/src/renderer.rs:41-131 | a document of incomplete nodes renders as nothing but raw text |
| MarkdownRendering.IncompleteHeadingShowsMarkers | examples/markdown-renderer/src/renderer.rs:60-66 | an unfinished heading shows its level in `#`s, a space, then its text |
| MarkdownRendering.IncompleteCodeShowsFence | examples/markdown-renderer/src/renderer.rs:113-121 | an unfinished code block shows the fence, the language if any, a line feed, then the code |
| MarkdownRendering.ParagraphRendersTokens | examples/markdown-renderer/src/renderer.rs:70-77 | a parsed paragraph renders the plain text of the tokens it passed, as a paragraph when complete and as raw text when not |
| MarkdownRendering.CodeBlockRendersTokens | examples/markdown-renderer/src/renderer.rs:100-123 | a parsed code block renders the plain text between its fences, structured when closed and behind its fence line when not |
| MarkdownRendering.PushNode | examples/markdown-renderer/src/renderer.rs:44-127 | one iteration of the rendering loop appends exactly the node's render items |
| MarkdownRendering.PushRawListLines | examples/markdown-renderer/src/renderer.rs:91-96 | the raw line loop of an unfinished list appends exactly its raw lines |
| MarkdownRendering.MarkdownRenderer.constructor | examples/markdown-renderer/src/renderer.rs:16-18 | a new renderer has nothing cached |
| MarkdownRendering.MarkdownRenderer.Parse | examples/markdown-renderer/src/renderer.rs:21-38 | parsing lexes with the Markdown rules and parses with the block rules, and caches the nodes it returns |
| MarkdownRendering.MarkdownRenderer.GetRenderResult | examples/markdown-renderer/src/renderer.rs:41-131 | the result holds the render items of every node, in order |

## Left out

- I/O: the `eprintln!`/`println!` diagnostics, `main` functions, `print_ast_tree` and the terminal programs `live_terminal.rs` and `interactive_editor.rs`. They only print or read a terminal.
- Benchmarks and tests: not modelled. The two benchmarks' Pratt tables are kept only as example configurations (`PrattExample`, `BatchExample`); their timing loops and input generators are not.
- The calculator lexers and the `parser-example` copies of the simple and calculator parsers: not modelled. They duplicate modelled code, and the calculator parser's own header says its trees are wrong.
- Unicode classes:
  - `char::is_alphabetic` and `char::is_alphanumeric` are parameters (`LegacyRules.CharClasses`), because they are tables from the Rust standard library;
  - `char::is_whitespace` is the White_Space list written out;
  - `len_utf8` is computed from the code point ranges.
- Float conversion: the demo's number token keeps its literal text instead of the `f64` that `str::parse` makes of it. Every literal the rule reads parses.
- TextSlices.SameSlice: the source compares slices with `Arc::ptr_eq`. The model has no pointer identity, so it asks for an equal buffer.
- Lexers.Lexer: modelled over `DefaultContext` only. The source's lexer is generic over its context, and the benchmarks also run it over `StreamingLexContext`. There, `next` calls `cursor().offset()` (lexer-framework/src/lexer.rs:98), and `StreamingLexContext::cursor()` always panics (lexer-framework/src/streaming.rs:74-80), so the source panics on the first `next` before the end of input. The streaming context itself is modelled (`StreamingLex`), but no lexer runs over it here.
- `Parser` has no `Outbound`/`Inbound` implementation in the source. The streaming pipeline is therefore modelled over any producer and consumer given as values whose signal operations are functions of their state.
- Sorting: `sort_by` on the rule vector is modelled as a stable insertion sort on a sequence (`Priorities.SortByPriority`), not an in-place sort.
- Rules that leave the cursor moved backward or on another input: not modelled. Every framework-level theorem assumes `Confined`, meaning each rule keeps the cursor valid, on the same input, and never moves it backward. Every concrete rule set here is proved to meet it.
- `Parser::parse` and `Lexer::tokenize` collect into a `Vec`. The model returns a sequence; no capacity or allocation is modelled.
- LazyContexts.LazyContext: the pulled-from iterator is the sequence of tokens it has still to give. Its `VecDeque` is a sequence that the methods reassign.
- LazyContexts.LazyContext.Restore: where the source panics on a checkpoint below the window, the method returns `false` and changes nothing.
- ParseContexts.TokenContext.Restore requires a checkpoint within the tokens and at the default position. The source accepts any checkpoint, but only checkpoints it made itself are ever passed back.
- Cursors.Cursor.Restore requires a checkpoint that some cursor over the same input could have taken. The source takes any checkpoint and would then report positions that match no char.
- LexContexts.DefaultContext.Restore has the same requirement, for the same reason.
- StreamingLex.StreamingLexContext.Restore has the same requirement, for the same reason.
- `Pratt`: `prefix_op` is not part of the configuration, because the loop never calls it.
- Pratt.PrattConfig: the configuration picks a prefix or infix form by the consumed token alone, from a fixed set of forms. The prefix forms are reject, atom, group, unary at its own binding power, and call with one optional argument. The infix forms are fail, postfix, and right operand with a build that may fail. A `parse_prefix` or `parse_infix` that reads tokens in some other pattern is outside the model, for example a call with several comma-separated arguments, or an infix form chosen by the left operand.
- Pratt: binding powers are `u8` in the source and unbounded naturals here. The loop only compares them and never does arithmetic on them, so nothing can wrap.
- MarkdownAst.SetState: `set_state` mutates the node in place; the model returns the updated node as a value.
- The Markdown parser's positions: the token-vector context has no token positions it can read, so every node carries the default position, as in the source.
- The Markdown `Eof` token never reaches the block rules in a batch run, because the lexer's `next` stops at the end of input before trying the `Eof` rule. The rules' `Eof` cases are modelled all the same.
- The older lexer's own context (`crate::lexer::context`, which src/lexer/rules.rs:1 imports) is not part of this model. Its rules run here on the framework's cursor, whose `peek_str` counts chars. The operator finding below depends on that count.
- LegacyLexing.LegacyTokenizeSpec takes a fuel bound, because the older `tokenize` loop need not end. `None` means the loop had not ended when the fuel ran out.
- Parsers.DrainSpec takes a fuel bound for the same reason: `drain_ready_nodes` loops for ever on a rule that succeeds without consuming.
- Pipelines.RunSpec takes a fuel bound for the same reason: the streaming run loops for as long as the consumer keeps answering.
- LegacyLexing.LegacyAgreesWhenAdvancing is stated for fuel of at least one step per char left, the bound within which the older loop ends.
- LegacyLexing.LegacyLexer.Tokenize runs its loop with the fuel bound of its specification function.
- Parsers.Parser.DrainReadyNodes runs its loop with the fuel bound of its specification function.
- Parsers.Parser.PushToken and Parsers.Parser.Finish drain with the same fuel bound.
- Pipelines.Run runs the streaming loop with the fuel bound of `Pipelines.RunSpec`.

## Findings

| source | as written | input that shows it | evidently intended | confidence | as-written member | corrected member |
|---|---|---|---|---|---|---|
| src/lexer.rs:65-72 | `tokenize` loops until `next_token` gives nothing, but the default `EofRule` matches at the end of input without consuming | any input, once the cursor reaches its end | stop at the end of input, as the newer engine's `next` does | high; not executed | LegacyLexing.LegacyTokenizeNeverEndsAtEof | LegacyLexing.GuardedTokenizeHasNoEof |
| lexer-example/src/bin/json_lexer.rs:185-189 | after `e` and a sign with no digit, one `pop` removes only the sign, so the number's text keeps the dangling `e` | `1e+` gives the text `1e` and leaves the cursor after `1` | restore the text together with the cursor: `1` | high; not executed | JsonLexing.SignedExponentWithoutDigits | JsonLexing.NumberTokenShape |
| examples/pipeline-demo/src/main.rs:19-23 | the streaming pipeline feeds the parser one token at a time, and `drain_ready_nodes` runs the expression rule as soon as a token arrives, so the first number is taken as a whole expression and the parser is then stuck at the operator, even once the input is finished | the tokens `3 + 4`: the pipeline yields only the node `3` | the sum `3 + 4`, which a batch parse of the same tokens gives | medium; not executed | DemoParsing.StreamingTakesFirstOperandAlone | DemoParsing.BatchParsesSum |
| src/lexer/rules.rs:206 | the peeked text is `op.len()` chars long, but `len()` counts bytes, so a multi-byte operator is compared with too long a text | operator `≠` on input `≠1`: not matched | peek as many chars as the operator has | high; not executed | LegacyRules.NonAsciiOperatorMissed | LegacyRules.OperatorCharsLongestMatch |

The JSON grammar that `JsonLexing` hands to the lexer engine runs the number rule as written (`JsonLexing.MatchNumberAsWritten`), as the program does; `JsonLexing.TryNumber` on a context is proved equal to it. The corrected rule (`JsonLexing.MatchNumber`) carries the intended token shape, and `JsonLexing.NumberAsWrittenKeepsMark` proves that both consume the same text, so the grammar's theorems about cursor movement hold for either. The legacy grammar keeps the operator rule as written (`LegacyRules.MatchOperator`), because its context method is proved against that rule. `LegacyRules.AsciiOperatorsAgree` and `LegacyRules.DefaultOperatorsAscii` show that the two rules agree on every operator set of ASCII operators, and the default set is one.
