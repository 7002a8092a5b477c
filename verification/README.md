# SECS/GEM log parser core in Dafny

This project models the parsing core of a log analyser for SECS/GEM equipment logs.
The core has two parts.

The first part is the text-to-tree pipeline of `parser_utils.py`:
- `tokenize` turns one message body into `LIST_START`, `LIST_END` and `VALUE` tokens;
- `build_tree` folds those tokens into a nested forest of leaves and lists.

The second part is the extraction and scanning logic of `log_parser.py`:
- `_find_ceid` and `_find_values` search the forest;
- `_parse_s6f11_report` and `_parse_s2f49_command` extract event details;
- the line loop of `parse_log_file` cuts a log into message blocks, dispatches each block to its extractor and keeps the events that have details.

Modules, one per file:

- `Text` (text.dfy): the character classes and string helpers the rest uses. It also holds `FirstMatch`, the leftmost-position search that `re.search` performs.
- `Tokenizer` (tokenizer.dfy): the token alternation and the payload pattern, each written as a deterministic matcher. Each pattern has a single match at a given position: a greedy run of a class stops at the first character outside it, the lazy `.*?>` of a value tag stops at the first `>` before a newline, and `'(.*)'\s*>$` can close at only one quote.
- `Trees` (trees.dfy): the `Tree` datatype, leaf and list counts, and the token text of a tree.
- `TreeBuilder` (builder.dfy): `build_tree` as a pure fold over a stack of frames.
- `RoundTrip` (roundtrip.dfy): writing a forest back out as markers. Reading that text gives the forest back.
- `TreeSearch` (search.dfy): the two searches, each proved equal to a plain pre-order scan.
- `Events` (events.dfy): the details mapping and the event record.
- `Report` (report.dfy): the S6F11 report extraction. The event catalog and the report catalog are parameters.
- `Command` (command.dfy): the S2F49 command extraction, that is, the command name, the lot id and the panel count.
- `LogScanner` (scanner.dfy): the header pattern, the message-name pattern and the scan.
  - The scan is stated once as a recursion over the line index (`ScanFrom`).
  - `ScanLines` and `CollectBlock` are the two nested index loops of the source; `ParseLog` runs them, and they are proved to compute `Scan`.
  - The properties are proved for any readers (`Matchers`), and `Parser` instantiates them with the log parser's own readers.

## Model

| member | source | states |
|---|---|---|
| Tokenizer.NextLexeme | parser_utils.py:9-33 | One step of the alternation consumes at least one character and yields at most one token; a value token's payload holds no `>` and no newline |
| Tokenizer.Tokenize | parser_utils.py:19-33 | A body yields no more tokens than it has characters, and every value payload holds no `>` and no newline |
| Tokenizer.ValueTagLen | parser_utils.py:13 | A VALUE match starts with `<` and ends at the first `>` after its header |
| Tokenizer.TokenizeSkipsSpaces | parser_utils.py:14-22 | Whitespace in front of a body yields no token: SKIP matches are dropped |
| Tokenizer.TokenizeDropsStray | parser_utils.py:17-22 | A character that starts no alternative and is not whitespace is passed over without a token |
| Tokenizer.TagPayloadExists | parser_utils.py:28-31 | The payload pattern matches every VALUE match, so the branch that drops a value tag for want of a payload is never taken |
| Tokenizer.QuotedTagPayload | parser_utils.py:28-31 | A value tag whose content is a quoted text after whitespace yields exactly the text between the quotes, inner quotes and the empty text included |
| Tokenizer.UnspacedTagIsBare | parser_utils.py:28-31 | A value tag with no whitespace yields its whole text before `>` as a bare word, quotes and header included |
| Tokenizer.ValueTokens | parser_utils.py:24-31 | Every value tag yields exactly one value token, whose payload is the text of the payload group that matched (`''` gives the empty text), and which equals the source's `group(1) or group(2)` whenever that is not None |
| Tokenizer.PayloadAsWritten | parser_utils.py:31 | `group(1) or group(2)` gives the matched text, except that an empty quoted payload gives None |
| Tokenizer.EmptyQuoteLosesPayload | parser_utils.py:28-31 | For `<A[0] ''>` the quoted group matches the empty text; the source turns it into None, the model keeps `""` |
| TreeBuilder.Step | parser_utils.py:38-47 | The stack is never empty. An opening marker pushes a new empty innermost list. A close with only the root open is a no-op, otherwise it pops one level. A value appends a leaf to the innermost list and keeps the depth |
| TreeBuilder.StepForest | parser_utils.py:39-45 | An opening marker adds an empty list as the last child of the innermost list; a closing marker never changes the forest the root holds |
| TreeBuilder.Build | parser_utils.py:35-48 | The built forest has one leaf per value token and one list per opening marker, whatever lists remain open |
| TreeBuilder.RunCounts | parser_utils.py:38-47 | Through the fold, leaves grow by one per value token and lists by one per opening marker |
| TreeBuilder.TrailingClosesIgnored | parser_utils.py:43-48 | Appending any number of closing markers does not change the result: open lists are closed implicitly and surplus closes are ignored |
| TreeBuilder.ExplicitCloses | parser_utils.py:43-48 | Closing each open list explicitly leaves only the root, holding the forest the source returns |
| TreeBuilder.ImplicitCloseIsExplicit | parser_utils.py:48 | Returning the root's children with lists still open gives the same result as closing those lists explicitly |
| TreeBuilder.RunTreeTokens | parser_utils.py:38-47 | The tokens of one tree add that tree as the last child of the innermost open list |
| TreeBuilder.BuildForestTokens | parser_utils.py:35-48 | Building the token stream of a forest gives that forest back |
| RoundTrip.ValueTagTokens | parser_utils.py:13-31 | A string value marker `<A[d] 'p'>` is read as exactly one value token carrying `p`, whatever count it declares |
| RoundTrip.RenderTreeTokens | parser_utils.py:9-33 | The written text of a tree reads as that tree's marker tokens, followed by the tokens of what comes after |
| RoundTrip.RenderParse | parser_utils.py:4-48 | Writing a forest out and tokenizing and building it again gives the same forest |
| RoundTrip.RenderTreeParse | parser_utils.py:4-48 | The written text of one tree builds the forest holding just that tree |
| RoundTrip.ParseRenderParse | parser_utils.py:4-48 | Any body, once built, written out and built again, gives the same forest |
| RoundTrip.PairBodyParse | parser_utils.py:4-48 | A body of the shape `<L[a] <A[b] 'p'> <L[c] <A[e] 'q'>>>` builds one list holding the leaf `p` and a list holding the leaf `q`, whatever counts it declares |
| TreeSearch.CeidLeaf | log_parser.py:9-12 | A leaf holding a code in decimal, with or without leading zeros (which `int()` ignores), is accepted exactly when the code is a key of the event catalog, and the answer is the code |
| TreeSearch.FindCeid | log_parser.py:7-18 | The answer, when there is one, is a non-negative key of the event catalog |
| TreeSearch.FindCeidPreorder | log_parser.py:13-18 | `_find_ceid` returns the first event leaf of the tree in pre-order, and nothing exactly when there is none |
| TreeSearch.FindValuesPreorder | log_parser.py:20-32 | `_find_values` checks a list before its children and returns the second element of the first tagged list in pre-order |
| Report.ChooseReport | log_parser.py:51-58 | The first schema in catalog order whose payload is truthy; every earlier schema's payload is missing or empty |
| Report.ApplyFields | log_parser.py:55-57 | The first `min(len(fields), len(payload))` names receive the matching entries (the last write wins on a repeated name); other keys are untouched |
| Report.Header | log_parser.py:47-54 | `CEID` is the code; `AlarmID` is present exactly when the event label contains "Alarm", and then equals the code; `RPTID` is present exactly when a schema was chosen |
| Report.ReportFromForest | log_parser.py:43-58 | The result is empty exactly when the forest is empty, has no event leaf, or its event code is 0 |
| Report.ReportEventCode | log_parser.py:45-49 | `CEID` is the first event leaf in pre-order; `AlarmID` is present exactly when that event's label contains "Alarm", and then equals `CEID` |
| Report.ReportSchemaChoice | log_parser.py:51-58 | `RPTID` is present exactly when some schema's payload is truthy, and it is then the key of the first such schema in catalog order |
| Report.LaterSchemasIgnored | log_parser.py:51-58 | Schemas after the chosen one are never looked at: dropping them from the catalog changes nothing |
| Report.ReportFieldMapping | log_parser.py:55-57 | With distinct field names, field k holds payload entry k when the payload has more than k entries, and is absent otherwise |
| Report.ScenarioEventOnly | log_parser.py:41-58 | For the forest of `<L[2] <A[1] '5'> <L[1] <A[1] 'OK'>>>`, with event 5 known and no report key 5, the result is exactly `{CEID: 5}` |
| Report.ScenarioEventOnlyText | log_parser.py:34-62 | The same from the body text, whatever counts the body declares |
| Command.CommandAt | log_parser.py:66 | A command name captured at a position has five or more characters from `[A-Z_]` |
| Command.LotIdAt | log_parser.py:68 | A lot id captured at a position holds no quote |
| Command.ParseCommand | log_parser.py:64-72 | Each of `RCMD`, `LotID` and `PanelCount` is present exactly when its own search succeeds and holds that search's capture; no other key is stored |
| Command.CommandEntry | log_parser.py:66-67 | `RCMD` is present exactly when the command pattern occurs somewhere; it is then the leftmost capture, five or more of `[A-Z_]` |
| Command.LotIdEntry | log_parser.py:68-69 | `LotID` is present exactly when the lot-id pattern occurs; it is the leftmost capture and holds no quote |
| Command.PanelsEntry | log_parser.py:70-71 | `PanelCount` is present exactly when the panel pattern occurs; it is the count the leftmost occurrence declares |
| Command.CommandNameLength | log_parser.py:66-67 | A string value of `[A-Z_]` characters is taken as the command name exactly when it has five or more characters |
| Command.CommandNameScenario | log_parser.py:66-67 | `ABC` is not a command name and `ABCDEFG` is |
| Command.LotIdRoundTrip | log_parser.py:68-69 | A lot id written after a `'LOTID'` name in any letter case is read back |
| Command.PanelsRoundTrip | log_parser.py:70-71 | A panel count written as the declared size of the list after `'LOTPANELS'` is read back |
| LogScanner.MatchHeaderSpec | log_parser.py:83-85 | A header that is found has a well-formed timestamp, a non-empty channel without `]` and a rest on one line, and the line starts with its text |
| LogScanner.HeaderRoundTrip | log_parser.py:83-85 | A well-formed header's text is matched, and the match gives back the same three groups |
| LogScanner.MessageNameSpec | log_parser.py:86-87 | The name is "N/A" exactly when the pattern occurs nowhere, and otherwise the word captured at the leftmost occurrence |
| LogScanner.NameAfterMessageName | log_parser.py:86-87 | `MessageName=` followed by a word names the message by that word |
| LogScanner.NameAfterMessage | log_parser.py:86-87 | `Message=`, then text with no colon, then `:'word'` names the message by that word |
| LogScanner.NoNameWithoutEquals | log_parser.py:86-87 | A text with no `=` names no message, so the name is "N/A" |
| LogScanner.BlockEndSpec | log_parser.py:90-91 | The body ends at the first line from its start that strips to `.`, or at the end of the log when there is none |
| LogScanner.Dispatch | log_parser.py:95-98 | Only S6F11 and S2F49 messages can have details |
| LogScanner.StepAt | log_parser.py:81-100 | One turn of the loop always moves forward, and an event it reports has details |
| LogScanner.ParseLog | log_parser.py:74-101 | No file gives no events, and neither does an empty file; otherwise the result is the scan of the lines, and every event has details |
| LogScanner.ScanLines | log_parser.py:79-100 | The outer loop computes the scan of the lines |
| LogScanner.LineAt | log_parser.py:80-84 | A turn of the loop at a blank line or a line without a header moves on by one line; at a header it does what `StepAt` says |
| LogScanner.HeaderStep | log_parser.py:85-100 | The work at a header line: collect the body when the header opens one, and make the event when the extractor returns something |
| LogScanner.CollectBlock | log_parser.py:90-91 | The inner loop collects exactly the lines up to, and not including, the first line that strips to `.` |
| LogScanner.ScanOrigins | log_parser.py:79-100 | Events are in file order: each comes from its own header line, and the next one starts after everything the previous one consumed |
| LogScanner.ScanDetails | log_parser.py:98-99 | Every event of the scan has non-empty details |
| LogScanner.ScanMessageKinds | log_parser.py:95-99 | Every event of the scan is an S6F11 or S2F49 message |
| LogScanner.EventBlock | log_parser.py:81-99 | An event comes from a core send or receive header followed by a line opening a list. It carries the header's timestamp and name, and the details of the non-empty body up to the first `.` line; the scan resumes after that line |
| LogScanner.BodyNeverEmpty | log_parser.py:89-93 | The line that opens a body is not a terminator, so a collected body is never empty |
| LogScanner.NoiseSkipped | log_parser.py:81-84 | Blank lines and non-header lines at the start of a log do not change the result |
| LogScanner.SingleMessage | log_parser.py:83-100 | A line that strips to a header's text, a body and its terminator give one event with the header's timestamp and name when the extractor returns something, and none otherwise; the scan carries on after the terminator |
| LogScanner.ParserReadsHeader | log_parser.py:81-86 | The log parser's readers read a well-formed header line back, strip such a line, with or without the newline `readlines` leaves on it, to the header's text, and strip `.` to itself |
| Text.StripSpec | log_parser.py:81 | `strip()` leaves a slice of the text with only whitespace removed on either side, neither starting nor ending with whitespace |

## Left out

- Reading the uploaded file is left out: the UTF-8 decode with its latin-1 fallback and the split into lines (log_parser.py:77-78) are I/O and encoding. The model starts from the decoded lines. A missing file is an `Option` that is `None`.
- The event and report catalogs come from a configuration module that is not part of this model. They are parameters: a map for events and an ordered sequence of schemas for reports.
- app.py and the analyser it imports are not part of this model: they are presentation and statistics.
- The regular-expression engine is not modelled. Each pattern is a hand-written matcher, and `FirstMatch` plays the part of `re.search`'s scan for the leftmost match.
- `\d`, `\w`, `str.isdigit()`, `int()` and IGNORECASE folding are modelled on ASCII only. Python also accepts other Unicode digits and letters there. An isdigit-but-not-decimal leaf such as `²` would make `int()` raise inside the swallowed `try`; that path is not modelled.
- The exception handler of `_parse_s6f11_report` (log_parser.py:60-61) has no counterpart, and every function here is total. Two ways the source can raise on ASCII input are not modelled. First, `int()` on a decimal text longer than the interpreter's integer-string limit (4300 digits by default on current CPython) raises ValueError. Second, a body nested deeper than the recursion limit makes the recursive searches raise RecursionError, which the handler does not catch. The model treats every digit string as its value and every depth as searchable.
- TreeSearch.CeidLeaf: accepts a digit leaf of any length, whereas `int()` at log_parser.py:10 raises on one longer than the integer-string limit.
- TreeSearch.FindCeidPreorder: states the first event leaf in pre-order, whereas the source raises at an earlier over-long digit leaf (log_parser.py:10) or on nesting deeper than the recursion limit (log_parser.py:15).
- Report.ReportFromForest: does not list the empty result that the source gives when the handler at log_parser.py:60-61 swallows the ValueError of an over-long digit leaf. A RecursionError on deep nesting escapes the handler entirely.
- Command.ParseCommand: states that PanelCount is present whenever its pattern occurs, whereas `int()` at log_parser.py:71 raises an uncaught ValueError on a count longer than the integer-string limit.
- Command.PanelsEntry: the same limit. An over-long count raises out of `parse_log_file` instead of giving PanelCount.
- Command.PanelsRoundTrip: the same limit. A written count longer than the integer-string limit is not read back; the source raises.
- LogScanner.ParseLog: always returns the events, whereas the source raises out of `parse_log_file` on an over-long panel count or on a body nested deeper than the recursion limit.
- Dict insertion order is not modelled: details are a Dafny `map`.
- A `None` leaf is not modelled. The source builds one from an empty quoted value; see Findings. Because `_find_values` uses None as its not-found result, the source passes over a tagged list `[key, None]` and goes on to a later list with the same key: `['7', None]` followed by `['7', ['a']]` selects `['a']`. The model holds `""` there, the search stops at it, and since `""` is not truthy no RPTID is set.
- Report.ReportEventCode: needs `ReservedFree`, that is, no schema field named `CEID`, `AlarmID` or `RPTID`, because the source would let such a field overwrite those keys. `ApplyFields` itself models the overwrite.
- Report.ReportSchemaChoice: needs `ReservedFree`, for the same reason.
- Report.ReportFieldMapping: needs `ReservedFree` and distinct field names. With a repeated name the later entry wins, which `ApplyFields` states.
- The modelled lines keep the newline that `readlines` leaves on every line but possibly the last; `Concat` relies on it to join a body. `LogScanner.SingleMessage` is stated for a line that strips to a header's text, and `ParserReadsHeader` shows the log parser's strip gives that text for a header line ending in a newline.
- The scan's properties are stated for any `Matchers`. The header, name and strip readers are concrete functions proved separately; the scan never relies on them being the log parser's.

Behaviour of the code that its names and comments do not suggest, which the model follows:
- A report payload is whatever follows the report key, a string included. A string payload maps its characters onto the field names, although the field names suggest a list was expected.
- A value tag with no space before its quote, such as `<A[3]'abc'>`, yields the bare word `<A[3]'abc'`, because the pattern's leftmost match wins, although the comment at parser_utils.py:30 calls group 1 the quoted string (`Tokenizer.UnspacedTagIsBare`).
- The scanner's events carry no event name; another part of the application adds it.

## Findings

| source | as written | input that shows it | evidently intended | confidence | as-written member | corrected member |
|---|---|---|---|---|---|---|
| parser_utils.py:31 | `val_match.group(1) or val_match.group(2)` treats an empty quoted payload as false and falls through to group 2, which did not take part in the match, so the token's value is None | `<A[0] ''>`, the empty ASCII item | the empty string, the text between the quotes | not executed; medium: None could be meant as "no value", but `_find_values` then reads the None as not found and searches on | Tokenizer.EmptyQuoteLosesPayload | Tokenizer.ValueTokens |
