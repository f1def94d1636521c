# debcontrol: a streaming parser for Debian control files, modelled in Dafny

A Debian control file is a sequence of paragraphs. A paragraph is a run of
field definitions (`Name: value`). A field may be followed by continuation
lines, which start with a space or a tab. Comment lines start with `#`.
Paragraphs are separated by blank lines. The crate parses such files with
nom. It has two things in it:

- a grammar, written once as a macro and instantiated twice (src/parser.rs).
  The *streaming* instance answers "incomplete" whenever more input could
  change its decision. The *complete* instance treats the end of the input
  as final.
- two buffering adapters that feed a byte source to the streaming grammar
  chunk by chunk. They are `BufParse` (src/buf_parse.rs) and its older twin
  `Parser` (src/stream_parser.rs). Each adapter decodes the longest valid
  UTF-8 prefix of its buffer. At the end of the input it falls back to the
  complete grammar.

The model has these modules:

| module | file | what it holds |
|---|---|---|
| `Wrappers` | wrappers.dfy | `Option` and `Result` |
| `Utf8` | utf8.dfy | UTF-8 as in section 4 of RFC 3629, `from_utf8` and the adapters' lenient decode |
| `Fields` | fields.dfy | `Field`, `Paragraph`, `FieldDefinition`, `Line`, the name predicates, `field_from_parts` |
| `Grammar` | grammar.dfy | one function per nom parser of the macro, with a `streaming` flag choosing the instance |
| `GrammarFacts` | grammar_facts.dfy | stability of streaming decisions under more input, and agreement of the two instances |
| `ParagraphFacts` | paragraph_facts.dfy | the shape of each line kind, and what `paragraph` does with typical inputs |
| `CompletionFacts` | completion_facts.dfy | what the complete instance does where the streaming one asks for more |
| `ControlFile` | control_file.dfy | the entry points `parse_streaming`, `parse_finish` and `parse_complete` |
| `Adapter` | adapter.dfy | `Step`, the specification of one `try_next`/`parse` call, and `Drain`, the reference run |
| `ByteSource` | byte_source.dfy | the in-memory `Bytes` source of both test modules |
| `BufParser` | buf_parse.dfy | class `BufParse` and the `parse_input` driving loop |
| `StreamParser` | stream_parser.dfy | class `Parser` and the `parse_utf8_input` driving loop |
| `TestCases` | test_cases.dfy | the inputs of the first two parser tests, worked through the grammar line by line |

Main results:

- **Streaming decisions are final.** A paragraph that `parse_streaming` returns is also what
  `parse_finish` returns on every extension of the input, and `parse_complete`
  starts with it (`ControlFile.ItemIsFinal`).
- **Chunk-size independence.** Each adapter's class is proved against `Step`.
  Each driving loop (`BufParser.ParseInput`, `StreamParser.ParseUtf8Input`) yields
  exactly `Drain` of the whole input for every positive chunk size. This holds
  even when a chunk boundary splits a multi-byte character.
- **Agreement with `parse_complete`.** `Drain` of valid UTF-8 yields exactly the
  paragraphs of `parse_complete` of the decoded text, or stops at its syntax
  error; `Drain` of invalid UTF-8 stops at an error (`Adapter.DrainIsParseComplete`).
  The key step is `CompletionFacts.ParagraphIncomplete`: where the streaming
  `paragraph` asks for more, a successful complete `paragraph` has consumed
  the whole input, so nothing is left for a second paragraph.

Where the prose description of the format and the code differ, the model
follows the code:

- The value of a field keeps any trailing spaces and tabs of its line.
  Only the line ending is removed.
- A line of only spaces or tabs inside a field is a continuation line with
  empty text. It does not end the field. It adds a bare `"\n"` to the value,
  so a value can end with a newline (`ParagraphFacts.WhitespaceLineContinues`).
- A value can also begin with a newline: `Name:` with an empty first line,
  followed by a continuation line.

Line endings are nom's: `"\n"` and `"\r\n"`. A lone `'\r'` followed by
anything else is a syntax error. A lone `'\r'` at the end of the input asks for
more in the streaming instance and is an error in the complete one.

## Model

| member | source | states |
|---|---|---|
| Fields.IsFieldNameChar | src/parser/mod.rs:8-10 | a name character is ASCII graphic (`!` to `~`) and not `:`; a predicate, whose consequences `Fields.NameCharRejects` states |
| Fields.StartsWithValidChar | src/parser/mod.rs:12-14 | a name is refused when it starts with `#` or with `-`; a predicate, whose cases `Fields.StartsWithValidCharCases` states |
| Fields.NameCharRejects | src/parser/mod.rs:8-10 | a field name cannot contain space, tab, `:` or any character beyond ASCII; ASCII letters, digits and `-` are allowed in it |
| Fields.StartsWithValidCharCases | src/parser/mod.rs:12-14 | the empty name passes; a non-empty name passes exactly when its first character is neither `#` nor `-` |
| Fields.NothingAppendedIffNoContinuation | src/parser/mod.rs:29-34 | the lines add nothing to the value exactly when none of them is a continuation line |
| Fields.FoldedField | src/parser/mod.rs:27-39 | the field keeps the definition's name; its value starts with the definition-line value, and is longer exactly when some line is a continuation |
| Fields.AppendedStep | src/parser/mod.rs:29-34 | one more line adds its own contribution at the end: `"\n"` and its text for a continuation line, nothing for any other line |
| Fields.FieldFromParts | src/parser/mod.rs:27-39 | the loop that pushes onto the value builds `FoldedField`: the name unchanged, the value the definition value extended line by line |
| Fields.FoldedValueIsJoinedContinuations | src/parser/mod.rs:27-39 | the name is the definition's name; the value is the definition value followed by `"\n" + text` for each continuation line, in list order |
| Fields.CommentsAndBlanksAddNothing | src/parser/mod.rs:29-33 | removing a comment or blank entry from anywhere in the line list leaves the value unchanged |
| Fields.NoContinuationsKeepValue | src/parser/mod.rs:29-33 | with no continuation line, the value is the definition value |
| Fields.NewlinesAddedPerContinuation | src/parser/mod.rs:30-32 | the number of newlines added is the number of continuation lines |
| Grammar.TakeWhile0 | src/parser.rs:67 | `space0`: success splits the input into its longest run of the class and the rest; the complete instance never asks for more |
| Grammar.TakeWhile1 | src/parser.rs:60 | `take_while1`/`space1`: as `TakeWhile0`, and success consumes at least one character |
| Grammar.Char | src/parser.rs:67 | `char(c)`: success consumes exactly `c` |
| Grammar.LineEnding | src/parser.rs:112 | `line_ending`: success consumes exactly `"\n"` or `"\r\n"` |
| Grammar.NotLineEnding | src/parser.rs:74 | `not_line_ending`: the output is the longest prefix without `'\r'` or `'\n'`, and the rest starts with a line ending; it reaches the end only in the complete instance |
| Grammar.OptLineEnding | src/parser.rs:74 | `opt(line_ending)` never fails |
| Grammar.Cut | src/parser.rs:84 | `cut` turns a recoverable error into a failure and passes everything else through |
| Grammar.FieldName | src/parser.rs:56-61 | a parsed name is a prefix of the input that passes `starts_with_valid_char`; the rest is a suffix |
| Grammar.ColonAndWhitespace | src/parser.rs:63-68 | success consumes input and leaves a suffix |
| Grammar.FieldValue | src/parser.rs:70-75 | the rest is a suffix of the input; the complete instance never asks for more |
| Grammar.FieldDefinitionLine | src/parser.rs:77-87 | success consumes input and leaves a suffix |
| Grammar.ContinuationLine | src/parser.rs:89-96 | success consumes input and yields a `Continuation` |
| Grammar.CommentLine | src/parser.rs:98-106 | success consumes input and yields `Comment` |
| Grammar.BlankLine | src/parser.rs:108-113 | success consumes input and yields `Blank` |
| Grammar.ContinuationOrComment | src/parser.rs:124 | the `alt` of the two: success consumes input |
| Grammar.FollowingLines | src/parser.rs:124 | `many0` of the `alt` never reports an error; the rest is a suffix |
| Grammar.ParseFieldDefinition | src/parser.rs:115-129 | success consumes input and leaves a suffix |
| Grammar.MoreFieldDefinitions | src/parser.rs:149 | the repetition part of `many1` never reports an error |
| Grammar.FieldDefinitions | src/parser.rs:149 | `many1(field_definition)`: success yields at least one field and consumes input |
| Grammar.BlankOrComment | src/parser.rs:147 | the `alt` of blank and comment lines: success consumes input |
| Grammar.SkipBlanksAndComments | src/parser.rs:147 | `many0_count` of blank and comment lines never reports an error |
| Grammar.Eof | src/parser.rs:131-140 | succeeds exactly on empty input, and otherwise is an error |
| Grammar.Terminator | src/parser.rs:150 | the rest is a suffix; the complete instance never asks for more |
| Grammar.OptFieldDefinitions | src/parser.rs:149 | on success the result is a paragraph exactly when input was consumed |
| Grammar.ParagraphBody | src/parser.rs:148-151 | the rest is a suffix; the complete instance never asks for more |
| Grammar.ParseParagraph | src/parser.rs:142-153 | the rest is a suffix of the input; the complete instance never answers incomplete |
| GrammarFacts.FollowingLinesStops | src/parser.rs:124 | `many0` stops exactly where its element reports an error |
| GrammarFacts.MoreFieldDefinitionsStops | src/parser.rs:149 | `many1` stops exactly where `field_definition` reports an error |
| GrammarFacts.SkipBlanksAndCommentsStops | src/parser.rs:147 | skipping stops exactly where neither a blank nor a comment line follows |
| GrammarFacts.TakeWhile0Stable | src/parser.rs:67 | a streaming decision of `space0` holds on every extension of the input |
| GrammarFacts.TakeWhile1Stable | src/parser.rs:60 | the same for `take_while1` |
| GrammarFacts.CharStable | src/parser.rs:67 | the same for `char` |
| GrammarFacts.LineEndingStable | src/parser.rs:112 | the same for `line_ending` |
| GrammarFacts.NotLineEndingStable | src/parser.rs:74 | the same for `not_line_ending` |
| GrammarFacts.OptLineEndingStable | src/parser.rs:74 | the same for `opt(line_ending)` |
| GrammarFacts.CutStable | src/parser.rs:84 | `cut` keeps a stable decision stable |
| GrammarFacts.FieldNameStable | src/parser.rs:56-61 | the same for `field_name` |
| GrammarFacts.ColonAndWhitespaceStable | src/parser.rs:63-68 | the same for `colon_and_whitespace` |
| GrammarFacts.FieldValueStable | src/parser.rs:70-75 | the same for `field_value` |
| GrammarFacts.FieldDefinitionLineStable | src/parser.rs:77-87 | the same for `field_definition_line` |
| GrammarFacts.ContinuationLineStable | src/parser.rs:89-96 | the same for `continuation_line` |
| GrammarFacts.CommentLineStable | src/parser.rs:98-106 | the same for `comment_line` |
| GrammarFacts.BlankLineStable | src/parser.rs:108-113 | the same for `blank_line` |
| GrammarFacts.ContinuationOrCommentStable | src/parser.rs:124 | the same for the `alt` of continuation and comment lines |
| GrammarFacts.FollowingLinesStable | src/parser.rs:124 | the same for the `many0` of that `alt` |
| GrammarFacts.ParseFieldDefinitionStable | src/parser.rs:115-129 | the same for `field_definition` |
| GrammarFacts.MoreFieldDefinitionsStable | src/parser.rs:149 | the same for the repetition part of `many1` |
| GrammarFacts.FieldDefinitionsStable | src/parser.rs:149 | the same for `many1(field_definition)` |
| GrammarFacts.BlankOrCommentStable | src/parser.rs:147 | the same for the `alt` of blank and comment lines |
| GrammarFacts.SkipBlanksAndCommentsStable | src/parser.rs:147 | the same for `many0_count` of that `alt` |
| GrammarFacts.TerminatorStable | src/parser.rs:150 | the same for the paragraph terminator |
| GrammarFacts.OptFieldDefinitionsStable | src/parser.rs:149 | the same for `opt(many1(...))` |
| GrammarFacts.ParagraphBodyStable | src/parser.rs:148-151 | the same for fields plus terminator |
| GrammarFacts.ParseParagraphStable | src/parser.rs:142-153 | a streaming `paragraph` that has decided keeps its paragraph, error or failure on any extension; its rest grows by exactly the new input |
| GrammarFacts.TakeWhile0Agrees | src/parser.rs:67 | the complete `space0` answers as the streaming one wherever that one does not ask for more |
| GrammarFacts.TakeWhile1Agrees | src/parser.rs:60 | the same for `take_while1` |
| GrammarFacts.CharAgrees | src/parser.rs:67 | the same for `char` |
| GrammarFacts.LineEndingAgrees | src/parser.rs:112 | the same for `line_ending` |
| GrammarFacts.NotLineEndingAgrees | src/parser.rs:74 | the same for `not_line_ending` |
| GrammarFacts.OptLineEndingAgrees | src/parser.rs:74 | the same for `opt(line_ending)` |
| GrammarFacts.FieldNameAgrees | src/parser.rs:56-61 | the same for `field_name` |
| GrammarFacts.ColonAndWhitespaceAgrees | src/parser.rs:63-68 | the same for `colon_and_whitespace` |
| GrammarFacts.FieldValueAgrees | src/parser.rs:70-75 | the same for `field_value` |
| GrammarFacts.FieldDefinitionLineAgrees | src/parser.rs:77-87 | the same for `field_definition_line` |
| GrammarFacts.ContinuationLineAgrees | src/parser.rs:89-96 | the same for `continuation_line` |
| GrammarFacts.CommentLineAgrees | src/parser.rs:98-106 | the same for `comment_line` |
| GrammarFacts.BlankLineAgrees | src/parser.rs:108-113 | the same for `blank_line` |
| GrammarFacts.ContinuationOrCommentAgrees | src/parser.rs:124 | the same for the `alt` of continuation and comment lines |
| GrammarFacts.BlankOrCommentAgrees | src/parser.rs:147 | the same for the `alt` of blank and comment lines |
| GrammarFacts.FollowingLinesAgrees | src/parser.rs:124 | the same for the `many0` of continuation and comment lines |
| GrammarFacts.ParseFieldDefinitionAgrees | src/parser.rs:115-129 | the same for `field_definition` |
| GrammarFacts.MoreFieldDefinitionsAgrees | src/parser.rs:149 | the same for the repetition part of `many1` |
| GrammarFacts.SkipBlanksAndCommentsAgrees | src/parser.rs:147 | the same for the skipping of leading lines |
| GrammarFacts.FieldDefinitionsAgrees | src/parser.rs:149 | the same for `many1(field_definition)` |
| GrammarFacts.TerminatorAgrees | src/parser.rs:150 | the same for the terminator |
| GrammarFacts.OptFieldDefinitionsAgrees | src/parser.rs:149 | the same for `opt(many1(...))` |
| GrammarFacts.ParagraphBodyAgrees | src/parser.rs:148-151 | the same for fields plus terminator |
| GrammarFacts.ParseParagraphAgrees | src/parser.rs:142-153 | the two instances of `paragraph` differ only where the streaming one asks for more input |
| ParagraphFacts.ValueShape | src/parser.rs:70-75 | a value is the text of its line up to the line ending, with no `'\r'` or `'\n'` in it; the line ending is consumed |
| ParagraphFacts.FieldNameShape | src/parser.rs:56-61 | a parsed name is the whole non-empty run of name characters at the start, and does not start with `#` or `-` |
| ParagraphFacts.ColonShape | src/parser.rs:63-68 | `':'`, then every following space and tab, is consumed |
| ParagraphFacts.DefinitionLineShape | src/parser.rs:77-87 | a definition line is name, `':'`, spaces or tabs, value and line ending; the value does not start with a space or a tab |
| ParagraphFacts.ContinuationLineShape | src/parser.rs:89-96 | a continuation line is a non-empty indent, text that does not start with a space or a tab, and a line ending; the indent is not part of the text |
| ParagraphFacts.WhitespaceLineContinues | src/parser.rs:89-96 | a line of only spaces or tabs after a field is an empty continuation and adds `"\n"` to the value |
| ParagraphFacts.BlankLineShape | src/parser.rs:108-113 | a blank line is spaces or tabs and one line ending |
| ParagraphFacts.TerminatorShape | src/parser.rs:150 | the terminator is one blank line, or the end of the input in the complete instance |
| ParagraphFacts.CommentAtEnd | src/parser.rs:98-106 | a comment running to the end of the input asks for more in the streaming instance |
| ParagraphFacts.NotContinuation | src/parser.rs:89-96 | a line not starting with a space or a tab is not a continuation |
| ParagraphFacts.NameThenNoColon | src/parser.rs:84 | after a name, a missing `':'` is a failure, because of `cut`, not a recoverable error |
| ParagraphFacts.SkipsLeadingLine | src/parser.rs:147 | a leading blank or comment line changes nothing about the paragraph found |
| ParagraphFacts.ParagraphFound | src/parser.rs:142-153 | a paragraph found has at least one field and consumes input |
| ParagraphFacts.StreamingNeverNone | src/parser.rs:142-153 | the streaming instance never succeeds without a paragraph |
| ParagraphFacts.CompleteNoneOnlyAtEnd | src/parser.rs:131-150 | the complete instance finds no paragraph only when nothing is left of the input |
| ParagraphFacts.ParagraphEnd | src/parser.rs:150 | the rest after a paragraph is what follows its terminator |
| ParagraphFacts.StreamingEndsAtBlankLine | src/parser.rs:150 | in the streaming instance exactly one blank line is consumed after the fields, and the rest is the untouched suffix after it |
| ParagraphFacts.EmptyInput | src/tests.rs:111-115 | empty input: the streaming instance asks for more and the complete one finds nothing |
| ParagraphFacts.OnlyBlankAndCommentLines | src/tests.rs:117-133 | input of only blank and comment lines: the streaming instance asks for more and the complete one finds nothing and consumes it all |
| ParagraphFacts.NameAtEndIsIncomplete | src/tests.rs:72-79 | a name running into the end of the input asks for more |
| ParagraphFacts.NameWithoutColonFails | src/tests.rs:145-174 | a name followed by anything but `':'` (a newline, a space, a non-ASCII character) is a syntax error in both instances, never incomplete |
| ParagraphFacts.HyphenNameIsError | src/tests.rs:156-163 | a name starting with `-` is a syntax error in both instances |
| ParagraphFacts.ContinuationFirstIsError | src/tests.rs:135-143 | an indented text line before any field definition is a syntax error in both instances |
| ParagraphFacts.NoTerminatingBlankLineIsIncomplete | src/tests.rs:81-109 | fields running to the end of the input without a terminating blank line ask for more in the streaming instance |
| ParagraphFacts.CommentDoesNotEndField | src/parser.rs:124 | a comment line between continuation lines is skipped and the field goes on after it |
| ParagraphFacts.StreamingItemIsFinal | src/parser.rs:158-159 | a paragraph of the streaming instance is what the complete instance finds on any extension of the input, with the extension added to its rest |
| CompletionFacts.DeadFieldName | src/parser.rs:56-61 | no field name starts a dead leftover: the complete `field_name` rejects it |
| CompletionFacts.DeadNoField | src/parser.rs:115-129 | no field definition starts a dead leftover, so `many0`/`many1` of field definitions stop in front of it and `opt` finds nothing |
| CompletionFacts.DeadNotBlank | src/parser.rs:108-113 | no blank line starts a dead leftover |
| CompletionFacts.DeadTerminator | src/parser.rs:131-140 | the only dead leftover the paragraph terminator accepts is the empty one, at the end of the input |
| CompletionFacts.DeadBody | src/parser.rs:148-151 | the complete paragraph body, started on a dead leftover, either fails or consumes everything |
| CompletionFacts.NotLineEndingIncomplete | src/parser.rs:74 | where the streaming `not_line_ending` asks for more, the complete one takes the whole input, or rejects a line ending in a lone `'\r'` |
| CompletionFacts.FieldValueIncomplete | src/parser.rs:70-75 | where the streaming `field_value` asks for more, the complete one consumes the whole input or rejects a trailing lone `'\r'` |
| CompletionFacts.ColonIncomplete | src/parser.rs:63-68 | where the streaming `colon_and_whitespace` asks for more, the complete one fails or consumes everything |
| CompletionFacts.FieldNameIncomplete | src/parser.rs:56-61 | where the streaming `field_name` asks for more, the complete one consumes everything or rejects a dead leftover |
| CompletionFacts.DefinitionLineIncomplete | src/parser.rs:77-87 | where the streaming `field_definition_line` asks for more, the complete one fails for good, rejects a dead leftover, or consumes everything |
| CompletionFacts.ContinuationLineIncomplete | src/parser.rs:89-96 | where the streaming `continuation_line` asks for more, the complete one consumes everything, or rejects nothing at all or an indented line ending in a lone `'\r'` |
| CompletionFacts.CommentLineIncomplete | src/parser.rs:98-106 | where the streaming `comment_line` asks for more, the complete one consumes everything, or rejects nothing at all or a comment ending in a lone `'\r'` |
| CompletionFacts.ContinuationOrCommentIncomplete | src/parser.rs:124 | where the streaming `alt((continuation_line, comment_line))` asks for more, the complete one consumes everything or rejects a dead leftover |
| CompletionFacts.FollowingLinesIncomplete | src/parser.rs:124 | where the streaming `many0` of following lines asks for more, the complete one succeeds and stops in front of a dead leftover |
| CompletionFacts.FieldDefinitionIncomplete | src/parser.rs:115-129 | where the streaming `field_definition` asks for more, the complete one fails for good, rejects a dead leftover, or stops in front of one |
| CompletionFacts.MoreFieldDefinitionsIncomplete | src/parser.rs:149 | where the streaming repetition of field definitions asks for more, the complete one fails for good or stops in front of a dead leftover |
| CompletionFacts.FieldDefinitionsIncomplete | src/parser.rs:149 | the same for `many1(field_definition)`, which may also reject a dead leftover |
| CompletionFacts.OptFieldDefinitionsIncomplete | src/parser.rs:149 | the same for `opt(many1(field_definition))`, which never rejects |
| CompletionFacts.BlankLineIncomplete | src/parser.rs:108-113 | where the streaming `blank_line` asks for more, the complete one rejects a dead leftover that does not start with `#` |
| CompletionFacts.TerminatorIncomplete | src/parser.rs:150 | where the streaming paragraph terminator asks for more, the complete one accepts only the end of the input |
| CompletionFacts.ParagraphBodyIncomplete | src/parser.rs:148-151 | where the streaming paragraph body asks for more, a successful complete one consumes everything |
| CompletionFacts.BlankOrCommentIncomplete | src/parser.rs:147 | where the streaming `alt((blank_line, comment_line))` asks for more, the complete one consumes everything or rejects a dead leftover |
| CompletionFacts.SkipIncompleteLeavesDead | src/parser.rs:147 | where the streaming skip of blank and comment lines asks for more, the complete one succeeds and stops in front of a dead leftover |
| CompletionFacts.ParagraphIncomplete | src/parser.rs:142-153 | where the streaming `paragraph` asks for more, a successful complete `paragraph` has consumed the whole input |
| ControlFile.ParseStreaming | src/tests.rs:16-40 | a paragraph returned has at least one field and leaves a strictly shorter suffix of the input |
| ControlFile.ParseFinish | src/tests.rs:180-226 | a paragraph returned has at least one field, and comes from non-empty input |
| ControlFile.ParseComplete | src/tests.rs:232-290 | every paragraph returned has at least one field |
| ControlFile.ItemIsFinal | src/buf_parse.rs:151-156 | a paragraph from `parse_streaming` is what `parse_finish` returns on any extension of the input, and `parse_complete` of the extension is that paragraph followed by `parse_complete` of the rest |
| ControlFile.StreamingDecided | src/buf_parse.rs:151-157 | once `parse_streaming` has answered a paragraph or a syntax error, more input changes neither; the rest grows by the new input |
| ControlFile.StreamingOfParagraph | src/parser.rs:158 | `parse_streaming` reports what the streaming instance of `paragraph` found |
| ControlFile.StreamingItem | src/parser.rs:158 | an item of `parse_streaming` is a paragraph of the streaming instance |
| ControlFile.AfterParagraph | src/parser.rs:159 | `parse_finish` and `parse_complete` both start with the paragraph the complete instance finds |
| ControlFile.FinishNoneIffOnlyBlankAndComments | src/tests.rs:265-280 | `parse_finish` finds no paragraph exactly when the input is only blank and comment lines |
| ControlFile.CompleteStartsWithFinish | src/tests.rs:232-263 | `parse_complete` starts with what `parse_finish` returns, and is empty exactly when that is None |
| ControlFile.OnlyBlankAndCommentsHoldNothing | src/tests.rs:265-280 | input of only blank and comment lines: `parse_complete` gives no paragraph, and `parse_streaming` asks for more |
| ControlFile.ErrorIsFinal | src/parser.rs:158-159 | a syntax error of `parse_streaming` is also one of `parse_finish` and `parse_complete` on the same input |
| ControlFile.IncompleteLeavesAtMostOne | src/buf_parse.rs:158-167 | where `parse_streaming` asks for more, `parse_complete` of the same input is `parse_finish` of it as a list of at most one paragraph, or its syntax error |
| Utf8.DecodeFirst | src/buf_parse.rs:170-175 | a decoded character takes as many bytes as its UTF-8 width, and one byte exactly when it is ASCII |
| Utf8.Decoded | src/buf_parse.rs:170-175 | the characters decoded have the byte length of the longest valid prefix |
| Utf8.Utf8Length | src/buf_parse.rs:153 | `str::len` counts between one and four bytes per character |
| Utf8.ValidLen | src/buf_parse.rs:172 | `valid_up_to` is at most the byte count; it is zero exactly when the bytes do not start with a valid character, and the whole byte count exactly when the bytes are well formed |
| Utf8.FromUtf8 | src/buf_parse.rs:159 | succeeds exactly on well-formed input, with the decoded string, whose byte length is the input's; on failure, `valid_up_to` is `ValidLen` of the input, the length of a well-formed proper prefix |
| Utf8.FromUtf8Lenient | src/buf_parse.rs:170-175 | the adapters' `from_utf8` never fails, and returns the decoded longest valid prefix |
| Utf8.ValidLenIsLongest | src/buf_parse.rs:170-175 | `valid_up_to` is the length of the longest well-formed prefix |
| Utf8.TruncateKeepsValidPrefix | src/buf_parse.rs:173 | cutting the bytes at or after `valid_up_to` keeps the valid prefix and its decoding |
| Utf8.TruncateAfterFirst | src/buf_parse.rs:173 | cutting the bytes after their first character keeps that character and cuts what follows it |
| Utf8.DecodedAppend | src/buf_parse.rs:249-256 | appending bytes only extends the decoding: a character split across chunks is decoded once its last byte arrives |
| Utf8.SuffixUtf8Length | src/buf_parse.rs:153 | `input.len() - rest.len()` is positive and at most `input.len()` when a non-empty prefix was consumed |
| Utf8.DecodedSplit | src/buf_parse.rs:153-154 | where the decoding of the bytes splits into two strings, the bytes after the encoding of the first decode to the second, and are valid exactly when all the bytes are |
| Adapter.Step | src/buf_parse.rs:148-168 | one call: the cursor moves by at most the pending bytes; an error never moves it; a paragraph moves it by at least one byte and has at least one field; "incomplete" comes only before exhaustion and consumes nothing; None comes only after exhaustion and consumes everything; an invalid UTF-8 error comes only after exhaustion, on ill-formed pending bytes |
| Adapter.StepDecided | src/buf_parse.rs:151-157 | once `parse_streaming` has decided on the valid prefix, more bytes and exhaustion change neither the answer nor the bytes consumed |
| Adapter.FreshBufferIsIncomplete | src/buf_parse.rs:110-118 | a fresh parser asks for more before anything is read |
| Adapter.ExhaustedEmptyIsNone | src/buf_parse.rs:142 | with nothing pending after exhaustion, a call answers None and consumes nothing |
| Adapter.NoneRepeats | src/buf_parse.rs:268-275 | after None, every later call answers None again |
| Adapter.ErrorRepeats | src/buf_parse.rs:277-307 | an error leaves the cursor in place, so the next call repeats it; invalid UTF-8 is reported only after exhaustion |
| Adapter.Drain | src/buf_parse.rs:211-228 | the reference run, calls repeated on the whole input after exhaustion until None or an error: it yields no more paragraphs than there are bytes, and no paragraph without fields |
| Adapter.DrainEmpty | src/buf_parse.rs:142 | a run on no bytes yields nothing and ends without error |
| Adapter.DrainAfterStep | src/buf_parse.rs:214-226 | a decided call on the pending bytes, followed by the reference run on the rest, is the reference run on the pending bytes and everything after them |
| Adapter.StepOnWhole | src/buf_parse.rs:148-168 | a call after exhaustion, by the answer of `parse_streaming`: a paragraph consumes its byte length, a request for more hands all pending bytes to `from_utf8` and `parse_finish` and consumes them all on success |
| Adapter.DrainFirst | src/buf_parse.rs:148-168 | the reference run's first step, by the answer of `parse_streaming`: a syntax error ends it, a paragraph is followed by the run on the bytes after it, and a request for more leaves the whole input to `from_utf8` and `parse_finish` |
| Adapter.DrainIsParseComplete | src/buf_parse.rs:211-228 | the reference run is `from_utf8` followed by `parse_complete`: on valid UTF-8 it yields exactly the paragraphs of `parse_complete` or stops at its syntax error; on invalid UTF-8 it stops at an error |
| Adapter.DrainAfterItem | src/buf_parse.rs:151-156 | the inductive step of that theorem: a paragraph, then the reference run on the bytes after it, is `parse_complete` of the whole decoded text |
| Adapter.BytesAfterItem | src/buf_parse.rs:153-154 | the bytes after a paragraph, `input.len() - rest.len()` on, decode to the text after it, and are valid UTF-8 exactly when the whole input is |
| Adapter.DriverStep | src/buf_parse.rs:214-226 | one decided call inside a driving loop ends the run as the reference run ends, or yields the reference run's next paragraph |
| Adapter.FollowsDrainAtStart | src/buf_parse.rs:212 | a fresh loop is on track with the reference run |
| Adapter.FollowsDrainAtEnd | src/buf_parse.rs:214 | a finished loop has produced the reference run, or nothing for chunks of zero bytes |
| Adapter.FollowsDrainAfterCall | src/buf_parse.rs:214-225 | each call keeps the loop on track; a request for more comes only before exhaustion and consumes nothing |
| Adapter.FollowsDrainAfterRead | src/buf_parse.rs:224 | reading a chunk keeps the loop on track; a read of nothing marks the source exhausted |
| ByteSource.Bytes.constructor | src/buf_parse.rs:195-197 | a new source has all of its bytes unread |
| ByteSource.Bytes.Read | src/buf_parse.rs:203-208 | a read fills the front of the buffer with the next `min(left, buf.len())` bytes, in order, and leaves the rest of the buffer as it was; it returns 0 exactly when the buffer is empty or nothing is left |
| BufParser.Zeros | src/buf_parse.rs:126 | `resize` fills the new room with zero bytes |
| BufParser.BufParse.constructor | src/buf_parse.rs:110-118 | a new parser has an empty buffer, `pos` 0, is not exhausted, and has read nothing |
| BufParser.BufParse.Buffer | src/buf_parse.rs:121-135 | the consumed bytes are dropped, `pos` becomes 0, and exactly the `min(left, chunk_size)` bytes read are appended behind the pending ones; `exhausted` becomes true exactly when the read returns 0 and is never reset |
| BufParser.BufParse.TryNext | src/buf_parse.rs:148-168 | the call does `Step` on the pending bytes: its answer is returned, `pos` moves by the bytes it consumed, and nothing else changes |
| BufParser.ParseInput | src/buf_parse.rs:211-228 | the driving loop yields exactly the reference run on the whole input, for every positive chunk size, and so the paragraphs or the syntax error of `parse_complete` on the decoded input; invalid UTF-8 ends it with an error |
| StreamParser.Parser.constructor | src/stream_parser.rs:47-55 | a new parser has an empty buffer, `pos` 0, is not exhausted, and has read nothing |
| StreamParser.Parser.Advance | src/stream_parser.rs:57-71 | as `buffer`: the consumed bytes are dropped, the bytes read are appended in order, and `exhausted` is set when a read returns 0 |
| StreamParser.Parser.Parse | src/stream_parser.rs:73-93 | the call does `Step` on the pending bytes: its answer is returned, `pos` moves by the bytes it consumed, and nothing else changes |
| StreamParser.ParseUtf8Input | src/stream_parser.rs:132-170 | the test loop yields exactly the reference run on the whole input, for every positive chunk size, and so what `parse_complete` makes of the decoded input; chunks of 1, 2, 10 and 1000 bytes therefore give the same paragraphs |
| TestCases.LineText | src/parser.rs:74 | `not_line_ending` stops at the `"\n"` after a line of text, and `opt(line_ending)` takes that `"\n"` |
| TestCases.ValueLine | src/parser.rs:70-75 | `field_value` on a line of text and `"\n"` returns the text and leaves what follows the `"\n"` |
| TestCases.NameOf | src/parser.rs:56-61 | a valid name followed by `:` is read whole by `field_name` |
| TestCases.ColonSpaceOf | src/parser.rs:63-68 | `": "` before a value that does not start with a space or tab is consumed whole by `colon_and_whitespace` |
| TestCases.DefinitionLineOf | src/parser.rs:77-87 | `name: value` and `"\n"`, for a valid name and a value not starting with a space or tab, is a definition line with that name and value |
| TestCases.ContinuationOf | src/parser.rs:89-96 | a space, a text and `"\n"` is a continuation line carrying the text |
| TestCases.CommentText | src/parser.rs:98-106 | `comment_line` takes `#`, the text after it and the `"\n"` |
| TestCases.CommentOf | src/parser.rs:98-106 | `#`, a text and `"\n"` is a comment line where a continuation could also be |
| TestCases.CommentLineOf | src/parser.rs:147 | `#`, a text and `"\n"` is a comment line skipped before a paragraph |
| TestCases.BlankLineOf | src/parser.rs:108-113 | a lone `"\n"` is a blank line skipped before a paragraph |
| TestCases.FollowingLinesEnd | src/parser.rs:124 | a line starting with neither a space, a tab nor `#` ends the lines that follow a definition, consuming nothing |
| TestCases.DefinitionsEndAtNewline | src/parser.rs:149 | a line ending is no field definition, so the repetition of definitions stops before it |
| TestCases.NewlineTerminates | src/parser.rs:150 | a lone `"\n"` terminates a paragraph and leaves nothing |
| TestCases.BlankTerminates | src/parser.rs:150 | a `"\n"` terminates a paragraph and leaves all that follows it |
| TestCases.CompletedField1 | src/tests.rs:20 | `field: value` followed by another definition is the field `field` with value `value` |
| TestCases.CompletedField2 | src/tests.rs:21-22 | `field2: value2` followed by a comment line is the field `field2` with value `value2`; the comment is consumed and adds nothing |
| TestCases.CompletedField3Lines | src/tests.rs:24-26 | the continuation, comment and continuation lines after `field3: line1` are read in order, up to the blank line |
| TestCases.CompletedField3Value | src/tests.rs:24-26 | the continuation, comment and continuation lines contribute `"\nline2\nline3"`: the comment adds nothing |
| TestCases.CompletedField3 | src/tests.rs:23-26 | `field3: line1` and those lines are the field `field3` with value `line1\nline2\nline3` |
| TestCases.CompletedParagraph | src/tests.rs:17-40 | `parse_streaming` of the test input returns the three fields, comments dropped and continuation lines joined, and leaves nothing |
| TestCases.PartialSkipped | src/tests.rs:46-47 | the leading blank line and comment are skipped up to the first definition |
| TestCases.PartialFieldFolded | src/tests.rs:48-49 | `field: value` and ` cont` are the field `field` with value `value\ncont` |
| TestCases.PartialParagraph | src/tests.rs:42-70 | `parse_streaming` of the test input returns the one field and leaves everything after the blank line that ends it, starting with `# comment` |

## Left out

- I/O errors of the source are left out. The test sources never fail, so the model's read is total. On a failed read the source leaves a zero-filled tail in the buffer (src/buf_parse.rs:126-127); the model does not capture that tail.
- The driving loops stop at the first error and return it. The test loops `unwrap` the result, which would panic instead.
- The test loops collect `(name, value)` pairs. The model's loops keep the paragraphs whole.
- Syntax errors are a tag. The model leaves out nom's error kinds, `context` labels and the residual input a syntax error carries.
- nom's `many0` check against an element that consumes nothing is left out. Every element parser is proved to consume input (`Consumes`), so the check can never fire.
- The count `many0_count` returns is not modelled. `paragraph` discards it.
- Names are owned strings. Lifetimes and borrowing are not modelled.
- `Vec::with_capacity` and the other allocation details are left out.
- The `Display` and `std::error::Error` impls are left out, and so are the blanket impls of the read traits over `std::io::Read` (src/buf_parse.rs:24-31, src/stream_parser.rs:11-18). They only format or forward.
- `ParserError` of the older adapter is the same type as `BufParseError`. `Error` of the crate is `SyntaxError`.
- The `Bytes` test source appears twice in the source. It is modelled once.
- The entry points `parse_streaming`, `parse_finish` and `parse_complete` live in the crate root. Their bodies are not part of this model, so they are modelled as thin wrappers over the two instances of `paragraph`. `parse_finish` drops what the complete instance leaves unconsumed.
- `parse` of src/lib.rs is `todo!()`, so it is not modelled. Its test expects field names with spaces, which `is_field_name_char` refuses.
- examples/ (command-line drivers) and tests/src-control-file.rs (a fixture file that is not part of this model) are left out.
- Bytes are modelled as a `byte` newtype over `0..255`, not as `bv8`.
- StreamParser.ParseUtf8Input: the test's concrete input is not evaluated. The method is stated for every input, and the concrete three fields it expects are not derived from the grammar.
- BufParser.ParseInput: the concrete fields of the buffer tests (src/buf_parse.rs:230-266) are not derived either. Only the general chunk-size independence and the agreement with `parse_complete` are proved.
- Adapter.DrainIsParseComplete: where the run stops at an error, it does not state which paragraphs came before it, and on invalid UTF-8 it does not state which of the two errors ends the run.
