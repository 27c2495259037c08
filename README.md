# Text highlighter: a Dafny model

This project models two components of a text-highlighting tool and proves properties of the model.

**The language server** (`highlight-lsp/src/main.rs`) keeps:
- a list of highlight patterns, edited by the `highlight.add`, `highlight.remove` and `highlight.clear` commands;
- a table of open documents, kept up to date by `did_open` and `did_change`.

For `semantic_tokens_full` it runs `find_matches`:
1. It builds a regex source for each pattern. This is the pattern verbatim, or escaped, optionally wrapped in `\b` anchors, optionally prefixed with `(?i)`.
2. It skips a pattern whose regex does not compile.
3. It pushes one semantic token per match, line by line.
4. It sorts the tokens stably by `(delta_line, delta_start)`.
5. It runs a "delta encoding" loop over them.

**The editor extension** (`src/lib.rs`) keeps:
- highlight entries under the key `"default"`;
- an 8-colour palette with a round-robin cursor.

It answers the slash commands `highlight`, `next_highlight`, `prev_highlight` and `clear_highlights`.

Modules:
- `Wrappers`: `Option` and `Result`.
- `Strings`: joining, splitting text into lines as `str::lines` does, and decimal numerals as Rust's `Display` prints them.
- `TokenOrder`: the semantic token, and the stable sort by position.
- `HighlightLsp`: the server. `Backend` is a class whose fields are the pattern list and the document table.
- `TextHighlighter`: the extension. `HighLighterState` is a class whose fields are the entry map, the palette and the cursor.

The regex crate is a parameter, `RegexEngine`, with three functions: `escape`, `compile` and `find_iter`. The only thing assumed about it is that every span `find_iter` reports lies within the line it searched.

**The token stream is not the protocol's delta encoding.** The code differs here from the Semantic Tokens encoding of the Language Server Protocol (version 3.16), where each token's line and column are relative to the previous token's. The model follows the code.
- A token's `delta_line` is the match's line index only for the very first token pushed. Every later token is pushed with `delta_line` 0.
- The sort therefore orders all but (at most) one token by column alone.
- The delta loop adds the running line and column back and then subtracts the same values, so it is the identity (`ConvertToDeltaEncoding`).

Take one literal, case-sensitive pattern `foo` and the text `"foo\nbar foo"`, with a regex engine that finds `foo` at column 0 on line 0 and at column 4 on line 1. Then `find_matches` returns `[(0,0,3), (0,4,3)]`, not `[(0,0,3), (1,4,3)]` (`LaterLineMatchReportedOnFirstLine`). `FindMatchesShape` describes the output in general:
- it has one token per match;
- every token type is below 8;
- no token has a modifier bit set;
- every token except the last has `delta_line` 0;
- the last token carries the line of the first match.

## Model

| member | source | states |
|---|---|---|
| Strings.Lines | highlight-lsp/src/main.rs:67 | no line contains a line feed |
| Strings.LinesRoundTrip | highlight-lsp/src/main.rs:67 | joining the lines with `\n`, plus the final terminator if the text had one, gives the text back |
| Strings.LinesOfJoin | highlight-lsp/src/main.rs:67 | splitting into lines undoes joining lines that hold no `\n` when the last is not empty; the empty text has no lines |
| Strings.LinesOfTerminatedJoin | highlight-lsp/src/main.rs:67 | a final `\n` does not start an extra empty line |
| Strings.Join | src/lib.rs:93 | `[String]::join`: the parts with the separator between consecutive parts (also at src/lib.rs:115, 262 and 268) |
| Strings.NatToString | src/lib.rs:268 | the count is printed as decimal digits, at least one digit, with no leading zero |
| Strings.ParseNatToString | src/lib.rs:268 | the printed count reads back as the same number |
| HighlightLsp.RegexSource | highlight-lsp/src/main.rs:50-62 | the regex source: the pattern verbatim if `is_regex`, else escaped and, with `whole_word`, wrapped in `\b…\b`; prefixed with `(?i)` unless `case_sensitive` |
| HighlightLsp.SpanMatches | highlight-lsp/src/main.rs:69-73 | one match per `find_iter` span on the line, in its order, with length `end - start` |
| HighlightLsp.LineMatches | highlight-lsp/src/main.rs:67-78 | the matches of one compiled pattern, line by line |
| HighlightLsp.PatternMatches | highlight-lsp/src/main.rs:58-78 | a pattern's matches; none when its regex does not compile |
| HighlightLsp.AllMatches | highlight-lsp/src/main.rs:49-79 | the matches of all patterns, pattern by pattern, in push order |
| HighlightLsp.TokenOf | highlight-lsp/src/main.rs:70-76 | the token pushed for a match: line only if first, start, length, type `pattern_idx % 8`, no modifiers |
| HighlightLsp.PushedTokens | highlight-lsp/src/main.rs:70-76 | one token per match, each carrying that match's start and length |
| HighlightLsp.FindMatchesResult | highlight-lsp/src/main.rs:45-107 | the stable sort of the pushed tokens of all matches on the text's lines |
| HighlightLsp.Retain | highlight-lsp/src/main.rs:208 | `retain`: never longer than the input, and no kept entry has the removed pattern text |
| TokenOrder.Insert | highlight-lsp/src/main.rs:82-85 | inserting adds exactly the one token: length grows by one, multiset gains the token |
| TokenOrder.SortByPosition | highlight-lsp/src/main.rs:82-85 | the sort is a permutation of the pushed tokens |
| TokenOrder.SortByPositionSorted | highlight-lsp/src/main.rs:82-85 | the result is ordered by `delta_line`, then `delta_start` |
| TokenOrder.SortByPositionStable | highlight-lsp/src/main.rs:82-85 | tokens with equal `(delta_line, delta_start)` keep their push order (`sort_by` is stable) |
| TokenOrder.StableSortUnique | highlight-lsp/src/main.rs:82-85 | two sorted sequences holding the same tokens key by key, in the same order, are equal |
| TokenOrder.SortByPositionIsTheStableSort | highlight-lsp/src/main.rs:82-85 | any sorted sequence that keeps each key's tokens in input order is the model's sort result, so the standard library's choice of algorithm does not matter |
| TokenOrder.SortByPositionMembers | highlight-lsp/src/main.rs:82-85 | a token is in the result exactly when it was pushed |
| TokenOrder.SortPutsLaterLineLast | highlight-lsp/src/main.rs:71-85 | a token on a later line than all others sorts last; the others are sorted among themselves |
| HighlightLsp.RegexSourceCaseInsensitive | highlight-lsp/src/main.rs:58-62 | a case-insensitive pattern gets exactly the `(?i)` prefix |
| HighlightLsp.RegexSourceVerbatim | highlight-lsp/src/main.rs:50-51 | a regex pattern is used unescaped, and `whole_word` has no effect on it |
| HighlightLsp.RegexSourceLiteral | highlight-lsp/src/main.rs:52-56 | a literal pattern is escaped; `whole_word` wraps it in `\b…\b` |
| HighlightLsp.PushedTokensSnoc | highlight-lsp/src/main.rs:70-76 | a pushed token takes its line index only when nothing was pushed before it |
| HighlightLsp.ConvertToDeltaEncoding | highlight-lsp/src/main.rs:88-104 | the delta loop returns its input unchanged |
| HighlightLsp.PushSpanTokens | highlight-lsp/src/main.rs:69-77 | the tokens after one line are the pushed tokens of the matches so far plus this line's `find_iter` spans |
| HighlightLsp.PushPatternTokens | highlight-lsp/src/main.rs:67-78 | the tokens after one pattern add that pattern's matches, line by line |
| HighlightLsp.FindMatches | highlight-lsp/src/main.rs:45-107 | the result is the stable sort of the pushed tokens of all patterns' matches, patterns in order, skipping any that fail to compile |
| HighlightLsp.LineMatchesFacts | highlight-lsp/src/main.rs:67-78 | each match of a pattern lies within an existing line, carries that pattern's index, and comes in line order |
| HighlightLsp.AllMatchesFacts | highlight-lsp/src/main.rs:49-79 | every match is a span in an existing line for an existing pattern; matches come by pattern, then by line |
| HighlightLsp.AllMatchesGroups | highlight-lsp/src/main.rs:49-79 | the matches for pattern k on line l are exactly `find_iter`'s on that line, in its order, or none if pattern k does not compile |
| HighlightLsp.FailedPatternContributesNothing | highlight-lsp/src/main.rs:58-65 | a pattern whose regex fails to compile yields no match, and every other pattern still contributes exactly its own matches, line by line |
| HighlightLsp.PushedTokensFacts | highlight-lsp/src/main.rs:70-76 | every pushed token has type below 8, modifiers 0, and `delta_line` 0 unless it is the first |
| HighlightLsp.SortedShapeOnLineZero | highlight-lsp/src/main.rs:70-85 | when the first match is on line 0, every output token has `delta_line` 0 |
| HighlightLsp.SortedShapeBelowLineZero | highlight-lsp/src/main.rs:70-85 | when the first match is below line 0, its token ends last and all others have `delta_line` 0 |
| HighlightLsp.SortedPushedTokensShape | highlight-lsp/src/main.rs:70-85 | the output has one token per match and the shape described above |
| HighlightLsp.FindMatchesShape | highlight-lsp/src/main.rs:45-107 | the same shape for `find_matches` on any patterns and text |
| HighlightLsp.FooBarFooLines | highlight-lsp/src/main.rs:67 | `"foo\nbar foo"` has the lines `foo` and `bar foo` |
| HighlightLsp.FooMatches | highlight-lsp/src/main.rs:49-79 | the pattern `foo` on those lines yields the matches (0,0,3) and (1,4,3) |
| HighlightLsp.FooTokensSorted | highlight-lsp/src/main.rs:70-85 | those two matches become the tokens (0,0,3) and (0,4,3) |
| HighlightLsp.LaterLineMatchReportedOnFirstLine | highlight-lsp/src/main.rs:45-107 | `find_matches` with the pattern `foo` on `"foo\nbar foo"` reports the match on line 1 with `delta_line` 0 |
| HighlightLsp.NoPatternsNoTokens | highlight-lsp/src/main.rs:45-49 | with no patterns no token is produced |
| HighlightLsp.RetainMembers | highlight-lsp/src/main.rs:208 | `remove` keeps exactly the entries whose pattern text differs, whatever their flags |
| HighlightLsp.RetainConcat | highlight-lsp/src/main.rs:208 | `remove` works entry by entry and keeps the order of what it keeps |
| HighlightLsp.AddThenRemove | highlight-lsp/src/main.rs:197-208 | removing a text right after adding a pattern with it leaves the same list as removing it alone |
| HighlightLsp.RetainIdempotent | highlight-lsp/src/main.rs:208 | removing twice is removing once |
| HighlightLsp.Backend.constructor | highlight-lsp/src/main.rs:37-43 | the server starts with no patterns and no documents |
| HighlightLsp.Backend.DidOpen | highlight-lsp/src/main.rs:164-167 | the document's text is stored under its URI, replacing any older text; patterns untouched |
| HighlightLsp.Backend.DidChange | highlight-lsp/src/main.rs:169-174 | the first change's text replaces the document's text; with no change nothing changes |
| HighlightLsp.Backend.SemanticTokensFull | highlight-lsp/src/main.rs:176-189 | `None` for an unknown URI, otherwise the tokens of `find_matches` on the stored text |
| HighlightLsp.Backend.ExecuteCommand | highlight-lsp/src/main.rs:191-223 | add appends the decoded pattern without deduplication; remove drops every entry with the decoded text; clear empties the list; a missing or undecodable argument or an unknown command changes nothing; documents untouched |
| TextHighlighter.Toggle | src/lib.rs:196-223 | removes the first entry with the same pattern and flags and reports false, or appends a new entry with the fetched colour and reports true; true exactly when no such entry existed, the list growing or shrinking by one |
| TextHighlighter.FlagNames | src/lib.rs:101-110 | the set flags' names, in the order case-sensitive, whole-word, regex |
| TextHighlighter.FlagSuffix | src/lib.rs:112-116 | `" (<names joined by ", ">)"`, or nothing when no flag is set |
| TextHighlighter.HighlightStatus | src/lib.rs:118-119 | "Added"/"Removed" highlight for pattern: `'<pattern>'` plus the flag suffix |
| TextHighlighter.HighlightOutput | src/lib.rs:121-127 | one section labelled "Text Highlighter" over the whole text |
| TextHighlighter.EntryText | src/lib.rs:248-265 | one summary item: `'<pattern>'<flags> [<colour>]` |
| TextHighlighter.SummaryText | src/lib.rs:239-268 | "No active highlights", or the count, " active highlights: " and the items joined by ", " |
| TextHighlighter.ParsedOptions | src/lib.rs:289-297 | each option is set exactly when its flag string is among the args |
| TextHighlighter.NonFlagArgs | src/lib.rs:290-298 | the args that are not flags, in order: never more than the args, and none of them a flag |
| TextHighlighter.FirstMatch | src/lib.rs:197-202 | the index found is the first entry with the same pattern and flags; none exactly when no entry matches |
| TextHighlighter.TogglePreservesUnique | src/lib.rs:191-224 | toggling never creates two entries with the same pattern and flags |
| TextHighlighter.ToggleFlipsPresence | src/lib.rs:191-224 | toggling reports "added" exactly when the entry was absent, and afterwards it is present exactly when it was absent before |
| TextHighlighter.ToggleTwice | src/lib.rs:191-224 | a toggle that added is undone by the next toggle with the same pattern and flags, which reports "removed" |
| TextHighlighter.FlagSuffixFaithful | src/lib.rs:101-116 | the flag suffix is empty exactly when no flag is set, and it names each set flag, and only those |
| TextHighlighter.SummaryReportsCount | src/lib.rs:239-268 | the summary is "No active highlights" exactly when there are none; otherwise its leading number is the entry count |
| TextHighlighter.NonFlagArgsConcat | src/lib.rs:293-301 | the arguments are classified one by one, independently of each other |
| TextHighlighter.NonFlagArgsMembers | src/lib.rs:293-301 | the remaining args are exactly the args that are not one of the three flags; there are none exactly when every arg is a flag |
| TextHighlighter.RepeatedFlagKeepsOptions | src/lib.rs:294-297 | repeating a flag anywhere does not change the options |
| TextHighlighter.RepeatedFlagIsHarmless | src/lib.rs:293-301 | repeating a flag anywhere changes neither the options nor the remaining args |
| TextHighlighter.FlagKeepsRemaining | src/lib.rs:293-301 | a flag inserted anywhere in the args leaves the remaining args as they were |
| TextHighlighter.HighLighterState.RunHighlight | src/lib.rs:83-127 | `highlight`: both error messages with the state unchanged; otherwise the toggle of the joined non-flag args with the parsed options, the cursor advanced, and the status text in one "Text Highlighter" section |
| TextHighlighter.NonFlagArgsDropsFlag | src/lib.rs:294-298 | a flag inserted anywhere never reaches the remaining args |
| TextHighlighter.FromArgs | src/lib.rs:288-304 | each option is set exactly when its flag is among the args; the remaining args are the non-flags in order |
| TextHighlighter.HighLighterState.constructor | src/lib.rs:29-46 | no entries, the eight-colour palette in order, the cursor at 0 |
| TextHighlighter.HighLighterState.GetAllPatterns | src/lib.rs:230-237 | an entry is returned exactly when it is stored under some key |
| TextHighlighter.HighLighterState.GetNextColor | src/lib.rs:273-277 | the colour under the cursor is returned; the cursor moves on by one, wrapping round; the entries stay |
| TextHighlighter.HighLighterState.ToggleHighlight | src/lib.rs:191-224 | the cursor advances on every call, removals included; the entries and the reported flag are those of `Toggle`, using the colour fetched first |
| TextHighlighter.HighLighterState.ClearAllHighlights | src/lib.rs:226-228 | no entries remain; the palette and cursor are kept |
| TextHighlighter.HighLighterState.GetPatternSummary | src/lib.rs:239-269 | the summary text of the current entries, one `'pattern' (flags) [colour]` item per entry |
| TextHighlighter.HighLighterState.FormatEntry | src/lib.rs:247-265 | one entry's text: the pattern quoted, its flag suffix, its colour in brackets |
| TextHighlighter.HighLighterState.RunSlashCommand | src/lib.rs:76-187 | both error messages of `highlight`, with the state unchanged; the toggle and status text otherwise; `next_highlight`/`prev_highlight` leave the state unchanged and report "No highlights found…" or the summary; `clear_highlights` reports the count it cleared; any other command is an error naming it |

## Left out

- The regex crate itself. The meaning of `\b` and `(?i)`, the escaping rules, and which spans `find_iter` reports are parameters (`RegexEngine`). Only their order and their being inside the line are used.
- Strings.Lines: does not strip a carriage return before `\n`, as `str::lines` does. Text with `\r\n` line ends is not modelled.
- Columns and lengths are offsets into the line as a character sequence. Rust uses byte offsets, and the LSP protocol expects UTF-16 units. The `highlight` output's section range is `0..|text|` over characters, not bytes.
- The `u32` casts in `find_matches` (line index, offsets, lengths) are unbounded naturals here. Overflow past 2^32 − 1 is not modelled.
- HighlightLsp.ConvertToDeltaEncoding: proves the identity in unbounded arithmetic only. Every token but the last has `delta_line` 0, so `prev_start` becomes the running sum of all earlier starts. On one long line with many matches, `prev_start + token.delta_start` (highlight-lsp/src/main.rs:94) can pass `u32::MAX`. Read as written, a debug build panics there. A release build wraps round and gets the same values back, which is why the identity still holds there. The panic is not modelled.
- HighlightLsp.Backend.SemanticTokensFull: takes the patterns from the object, as `find_matches` reads them through `self`. `FindMatches` itself takes them as a parameter.
- Concurrency and the runtime. `async`, `Arc<RwLock<…>>`, the tokio transport, `main` and `LspService` are out, so the model's operations run one at a time. So are the client calls `log_message` and `semantic_tokens_refresh`, which have no effect on the state.
- `initialize`, `initialized` and `shutdown`. They only return fixed capability data or nothing.
- serde decoding of command arguments. It is an input, `CommandArgument`, holding the pattern or text decode result, or `None` when decoding fails.
- The `println!` in `next_highlight`/`prev_highlight`. It is output only.
- `complete_slash_command_argument` and `register_extension!`. These are editor integration and do not touch the highlight state.
- `HighLighterExtension` and `HighLighterState` are merged into one class. The `RwLock` between them is left out.
- TextHighlighter.HighLighterState.GetAllPatterns: requires the keys to be at most `{"default"}`, as every operation keeps them, because `HashMap` iteration order is unspecified. With that one key the order is that of the default list.
- The standard library's sort algorithm is an insertion sort here. `SortByPositionIsTheStableSort` shows every stable sort gives the same result.
